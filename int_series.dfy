/**
 * intSeries.go: a series of counts against counts, joining two date series
 * on their shared dates.
 */
module IntSeriesOps {
  import opened Wrappers
  import opened Helpers
  import opened Series
  import opened DateSeriesOps

  datatype IntSeries = IntSeries(X: seq<int>, Y: seq<int>, Name: string)

  /** getXYPairs: fails exactly when X and Y differ in length; otherwise
      point i pairs X[i] with Y[i]. */
  method GetXYPairs(s: IntSeries) returns (r: Result<seq<Point>, string>)
    ensures r.Failure? <==> |s.X| != |s.Y|
    ensures r.Success? ==> |r.value| == |s.X|
    ensures r.Success? ==> forall i :: 0 <= i < |s.X| ==> r.value[i] == Point(s.X[i], s.Y[i])
  {
    if |s.X| != |s.Y| {
      return Failure("Error in series '" + s.Name + "': x/y data length mismatch");
    }
    var points := new Point[|s.X|];
    for i := 0 to |s.X|
      invariant forall j :: 0 <= j < i ==> points[j] == Point(s.X[j], s.Y[j])
    {
      points[i] := Point(s.X[i], s.Y[i]);
    }
    r := Success(points[..]);
  }

  /** The legend name of a series. */
  function GetName(s: IntSeries): string
  {
    s.Name
  }

  /** The legend shows the name the series was created with. */
  lemma NameIsGiven(s: IntSeries, name: string)
    requires s.Name == name
    ensures GetName(s) == name
  {
  }

  /** The positions among the first n dates of xDates whose date also occurs
      in yDates, in increasing order. */
  function Matching(xDates: seq<int>, yDates: seq<int>, n: nat): (r: seq<nat>)
    requires n <= |xDates|
    ensures |r| <= n
    ensures forall k :: 0 <= k < |r| ==> r[k] < n
    ensures forall a, b :: 0 <= a < b < |r| ==> r[a] < r[b]
    ensures forall i: nat :: i in r <==> i < n && xDates[i] in yDates
  {
    if n == 0 then []
    else Matching(xDates, yDates, n - 1) + if xDates[n - 1] in yDates then [n - 1] else []
  }

  /** When every date of xDates occurs in yDates, no position is dropped. */
  lemma {:induction false} MatchingAll(xDates: seq<int>, yDates: seq<int>, n: nat)
    requires n <= |xDates|
    requires forall i :: 0 <= i < n ==> xDates[i] in yDates
    ensures |Matching(xDates, yDates, n)| == n
  {
    if n > 0 {
      MatchingAll(xDates, yDates, n - 1);
    }
  }

  /** createIntSeries: with equally long Y sequences the two Y sequences are
      paired as they stand, dates unchecked. Otherwise each date of x that
      also occurs in y, in x's order, pairs x's count with y's count at the
      first position of that date in y. */
  method CreateIntSeries(x: DateSeries, y: DateSeries, name: string) returns (r: IntSeries)
    requires |x.Y| != |y.Y| ==> |x.X| <= |x.Y| && |y.X| <= |y.Y|
    ensures r.Name == name && GetName(r) == name
    ensures |x.Y| == |y.Y| ==> r.X == x.Y && r.Y == y.Y
    ensures |x.Y| != |y.Y| ==> |r.X| == |r.Y| <= |x.X|
    ensures |x.Y| != |y.Y| ==>
              var m := Matching(x.X, y.X, |x.X|);
              && |r.X| == |m|
              && forall k :: 0 <= k < |m| ==>
                   && r.X[k] == x.Y[m[k]]
                   && r.Y[k] == y.Y[IndexOf(y.X, x.X[m[k]])]
  {
    if |x.Y| == |y.Y| {
      return IntSeries(x.Y, y.Y, name);
    }
    var xData, yData := JoinByDate(x, y);
    r := IntSeries(xData, yData, name);
  }

  /** The loop of createIntSeries: the counts of the dates x shares with y,
      in x's order. */
  method JoinByDate(x: DateSeries, y: DateSeries) returns (xData: seq<int>, yData: seq<int>)
    requires |x.X| <= |x.Y| && |y.X| <= |y.Y|
    ensures var m := Matching(x.X, y.X, |x.X|);
            && |xData| == |yData| == |m|
            && forall k :: 0 <= k < |m| ==>
                 && xData[k] == x.Y[m[k]]
                 && yData[k] == y.Y[IndexOf(y.X, x.X[m[k]])]
  {
    xData, yData := [], [];
    ghost var m: seq<nat> := [];
    for i := 0 to |x.X|
      invariant m == Matching(x.X, y.X, i)
      invariant |xData| == |yData| == |m|
      invariant forall k :: 0 <= k < |m| ==> xData[k] == x.Y[m[k]] && yData[k] == y.Y[IndexOf(y.X, x.X[m[k]])]
    {
      var date := x.X[i];
      var j := IndexOf(y.X, date);
      if j >= 0 {
        xData := xData + [x.Y[i]];
        yData := yData + [y.Y[j]];
        m := m + [i];
      }
    }
  }
}
