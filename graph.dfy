/**
 * graph.go: the line-plot sink and the month-stepping ticker of its time
 * axis. Rendering and saving are not modelled; a plot is the record of what
 * would be drawn.
 */
module Graph {
  import opened Wrappers
  import opened DateSeriesOps
  import opened IntSeriesOps

  /** Either kind of series the plot accepts. */
  datatype PlotSeries = Dates(dates: DateSeries) | Ints(ints: IntSeries)

  /** The plot createLinePlot would save: its labels, whether the x axis
      carries the time ticker, and its series in argument order. */
  datatype LinePlot = LinePlot(
    Title: string, XLabel: string, YLabel: string, FileName: string,
    TimeAxis: bool, Series: seq<PlotSeries>)

  /** getXYPairs succeeds on a series exactly when its X and Y are equally long. */
  predicate Plottable(s: PlotSeries)
  {
    match s
    case Dates(d) => |d.X| == |d.Y|
    case Ints(i) => |i.X| == |i.Y|
  }

  /** Every series can form its points. */
  predicate AllPlottable(data: seq<PlotSeries>)
  {
    forall i :: 0 <= i < |data| ==> Plottable(data[i])
  }

  /** Three date series, each with as many values as dates, can all form
      their points. */
  lemma PlottableTriple(a: DateSeries, b: DateSeries, c: DateSeries)
    requires |a.X| == |a.Y| && |b.X| == |b.Y| && |c.X| == |c.Y|
    ensures AllPlottable([Dates(a), Dates(b), Dates(c)])
  {
  }

  /** Two more date series, each with as many values as dates, keep a
      plottable list plottable. */
  lemma PlottablePair(s: seq<PlotSeries>, a: DateSeries, b: DateSeries)
    requires AllPlottable(s) && |a.X| == |a.Y| && |b.X| == |b.Y|
    ensures AllPlottable(s + [Dates(a), Dates(b)])
  {
  }

  /** createLinePlot: no series is an error, and so is a series whose points
      cannot be formed; otherwise the plot holds the series as given, on a
      time axis when the first series is a date series. */
  function CreateLinePlot(title: string, xLabel: string, yLabel: string, fileName: string,
                          data: seq<PlotSeries>): (r: Result<LinePlot, string>)
    ensures r.Success? <==> data != [] && AllPlottable(data)
    ensures data == [] ==> r == Failure("Graph error: No series provided")
    ensures r.Success? ==> r.value.Series == data && r.value.Title == title && r.value.FileName == fileName
    ensures r.Success? ==> r.value.TimeAxis == data[0].Dates?
  {
    if |data| < 1 then Failure("Graph error: No series provided")
    else if exists i :: 0 <= i < |data| && !Plottable(data[i]) then
      Failure("Error in series: x/y data length mismatch")
    else Success(LinePlot(title, xLabel, yLabel, fileName, data[0].Dates?, data))
  }

  /** The most ticks the time axis aims for. */
  const MaxNoTicks := 10

  /** Go's integer division, which truncates toward zero: the remainder is
      smaller than b in magnitude and has the sign of a. */
  function Quot(a: int, b: int): (q: int)
    requires b > 0
    ensures a >= 0 ==> 0 <= a - q * b < b
    ensures a < 0 ==> -b < a - q * b <= 0
  {
    if a >= 0 then a / b else -((-a) / b)
  }

  /** A truncated quotient is at most MaxNoTicks exactly below (MaxNoTicks + 1) * b. */
  lemma QuotWithinTicks(a: int, b: int)
    requires b > 0
    ensures Quot(a, b) <= MaxNoTicks <==> a < (MaxNoTicks + 1) * b
  {
    if a >= 0 {
      var q, r := a / b, a % b;
      assert a == q * b + r && 0 <= r < b;
      if q <= MaxNoTicks {
        assert q * b <= MaxNoTicks * b;
      } else {
        assert q * b >= (MaxNoTicks + 1) * b;
      }
    }
  }

  /** The month step of the time axis for a span of totalMonths months, or
      None where the default ticker takes over. */
  function TickIncrement(totalMonths: int): (inc: Option<int>)
    ensures inc.Some? ==> inc.value in {1, 3, 6, 12}
    ensures totalMonths <= MaxNoTicks <==> inc == Some(1)
    ensures inc.Some? ==> Quot(totalMonths, inc.value) <= MaxNoTicks
    ensures inc == Some(3) ==> totalMonths > MaxNoTicks
    ensures inc == Some(6) ==> Quot(totalMonths, 3) > MaxNoTicks
    ensures inc == Some(12) ==> Quot(totalMonths, 6) > MaxNoTicks
    ensures inc.None? <==> Quot(totalMonths, 12) > MaxNoTicks
  {
    QuotWithinTicks(totalMonths, 1);
    QuotWithinTicks(totalMonths, 3);
    QuotWithinTicks(totalMonths, 6);
    QuotWithinTicks(totalMonths, 12);
    if totalMonths <= MaxNoTicks then Some(1)
    else if Quot(totalMonths, 3) <= MaxNoTicks then Some(3)
    else if Quot(totalMonths, 6) <= MaxNoTicks then Some(6)
    else if Quot(totalMonths, 12) <= MaxNoTicks then Some(12)
    else None
  }

  /** The same rule in months: up to 10 months monthly, up to 32 quarterly,
      up to 65 half-yearly, up to 131 yearly, beyond that the default ticker. */
  lemma TickThresholds(totalMonths: int)
    ensures TickIncrement(totalMonths) ==
            if totalMonths <= 10 then Some(1)
            else if totalMonths <= 32 then Some(3)
            else if totalMonths <= 65 then Some(6)
            else if totalMonths <= 131 then Some(12)
            else None
  {
    QuotWithinTicks(totalMonths, 3);
    QuotWithinTicks(totalMonths, 6);
    QuotWithinTicks(totalMonths, 12);
  }

  /** TimeTicker.Ticks on whole seconds: from minTime, stepping by the chosen
      number of months, every instant up to and including maxTime. Calendar
      arithmetic is the parameter addMonths, which must move time forward.
      None stands for the default ticker. */
  method Ticks(minTime: int, maxTime: int, totalMonths: int, addMonths: (int, int) -> int)
    returns (ticks: Option<seq<int>>)
    requires forall t: int, n: int :: n > 0 ==> addMonths(t, n) > t
    ensures ticks.None? <==> TickIncrement(totalMonths).None?
    ensures ticks.Some? ==>
              var ts, inc := ticks.value, TickIncrement(totalMonths).value;
              && (ts == [] <==> minTime > maxTime)
              && (ts != [] ==> ts[0] == minTime && addMonths(ts[|ts| - 1], inc) > maxTime)
              && (forall i :: 0 <= i < |ts| ==> minTime <= ts[i] <= maxTime)
              && (forall i :: 0 <= i < |ts| - 1 ==> ts[i + 1] == addMonths(ts[i], inc))
  {
    var increment := TickIncrement(totalMonths);
    if increment.None? {
      return None;
    }
    var inc := increment.value;
    var ts: seq<int> := [];
    var i := minTime;
    while i <= maxTime
      invariant ts == [] ==> i == minTime
      invariant ts != [] ==> ts[0] == minTime && i == addMonths(ts[|ts| - 1], inc)
      invariant forall k :: 0 <= k < |ts| ==> minTime <= ts[k] <= maxTime
      invariant forall k :: 0 <= k < |ts| - 1 ==> ts[k + 1] == addMonths(ts[k], inc)
      invariant minTime <= i
      decreases maxTime - i
    {
      ts := ts + [i];
      i := addMonths(i, inc);
    }
    ticks := Some(ts);
  }
}
