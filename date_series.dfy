/**
 * dateSeries.go: a series of instants on the x axis against counts on the y
 * axis, built from a date map.
 */
module DateSeriesOps {
  import opened Wrappers
  import opened Helpers
  import opened Util
  import opened Series

  datatype DateSeries = DateSeries(X: seq<int>, Y: seq<int>, Name: string)

  /** s is the series of data titled title: the keys of data in increasing
      order, each with its value. */
  ghost predicate SeriesOf(s: DateSeries, title: string, data: map<int, int>)
  {
    && s.Name == title
    && StrictlyAscending(s.X)
    && |s.X| == |data|
    && (forall k :: k in s.X <==> k in data)
    && |s.Y| == |s.X|
    && (forall i :: 0 <= i < |s.X| ==> s.Y[i] == data[s.X[i]])
  }

  /** seriesFromMap: X is the ordered key sequence, Y the matching values. */
  method SeriesFromMap(title: string, data: map<int, int>) returns (result: DateSeries)
    ensures SeriesOf(result, title, data)
    ensures data == map[] ==> result.X == [] && result.Y == []
  {
    var x := SortKeys(data);
    assert forall j :: 0 <= j < |x| ==> x[j] in data by {
      forall j | 0 <= j < |x| ensures x[j] in data {
        assert x[j] in x;
      }
    }
    var y := [];
    for i := 0 to |x|
      invariant |y| == i
      invariant forall j :: 0 <= j < i ==> y[j] == data[x[j]]
    {
      y := y + [data[x[i]]];
    }
    result := DateSeries(x, y, title);
  }

  /** A map has exactly one series, whatever order its keys are visited in. */
  lemma SeriesOfUnique(s: DateSeries, t: DateSeries, title: string, data: map<int, int>)
    requires SeriesOf(s, title, data) && SeriesOf(t, title, data)
    ensures s == t
  {
    AscendingUnique(s.X, t.X);
  }

  /** A map whose values never fall along its dates plots a y sequence that never falls. */
  lemma MonotoneSeries(s: DateSeries, title: string, data: map<int, int>)
    requires SeriesOf(s, title, data) && Monotone(data)
    ensures Ascending(s.Y)
  {
  }

  /** The first date of a series is the earliest key of its map, and a
      series has no dates exactly when its map is empty. */
  lemma FirstDateIsEarliest(s: DateSeries, title: string, data: map<int, int>)
    requires SeriesOf(s, title, data)
    ensures s.X == [] <==> data.Keys == {}
    ensures s.X != [] ==> s.X[0] == SetMin(data.Keys)
  {
    if s.X != [] {
      assert s.X[0] in s.X;
      forall k | k in data.Keys ensures s.X[0] <= k {
        var i :| 0 <= i < |s.X| && s.X[i] == k;
      }
      SetMinUnique(data.Keys, s.X[0]);
    }
  }

  /** The legend name of a series. */
  function GetName(s: DateSeries): string
  {
    s.Name
  }

  /** The legend shows the title the series was built with. */
  lemma NameIsTitle(s: DateSeries, title: string, data: map<int, int>)
    requires SeriesOf(s, title, data)
    ensures GetName(s) == title
  {
  }

  /** getXYPairs: fails exactly when X and Y differ in length; otherwise
      point i pairs X[i] with Y[i]. */
  method GetXYPairs(s: DateSeries) returns (r: Result<seq<Point>, string>)
    ensures r.Failure? <==> |s.X| != |s.Y|
    ensures r.Success? ==> |r.value| == |s.X|
    ensures r.Success? ==> forall i :: 0 <= i < |s.X| ==> r.value[i] == Point(s.X[i], s.Y[i])
  {
    if |s.X| != |s.Y| {
      return Failure("Error in series '" + s.Name + "': x/y data length mismatch");
    }
    var points := new Point[|s.X|];
    for i := 0 to |s.X|
      invariant forall j :: 0 <= j < i ==> points[j] == Point(s.X[j], s.Y[j])
    {
      points[i] := Point(s.X[i], s.Y[i]);
    }
    r := Success(points[..]);
  }
}
