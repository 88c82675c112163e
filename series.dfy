/**
 * series.go: the series interface both series kinds implement. A plotted
 * point is an (x, y) pair; the plotting library keeps these as float64,
 * modelled here as integers.
 */
module Series {
  datatype Point = Point(X: int, Y: int)
}
