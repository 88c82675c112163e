/**
 * barSeries.go: one bar per group, its height the size of the group.
 */
module BarSeriesOps {
  import opened Records
  import opened Helpers
  import opened Series

  /** Bar heights are float64 in the plotting library; group sizes are whole
      numbers, so they are kept as integers. */
  datatype BarSeries = BarSeries(Name: string, Names: seq<string>, Values: seq<int>)

  /** s has one bar per group of groups, each group named once, each bar as
      high as its group is large. */
  ghost predicate BarsOf(s: BarSeries, name: string, groups: map<string, seq<Issue>>)
  {
    && s.Name == name
    && |s.Names| == |s.Values| == |groups|
    && (forall u :: u in s.Names <==> u in groups)
    && (forall i, j :: 0 <= i < j < |s.Names| ==> s.Names[i] != s.Names[j])
    && (forall i :: 0 <= i < |s.Names| ==> s.Names[i] in groups && s.Values[i] == |groups[s.Names[i]]|)
  }

  /** barSeriesFromGroups: the groups visited in map order, appending name and
      size in lockstep. */
  method BarSeriesFromGroups(name: string, groups: map<string, seq<Issue>>) returns (series: BarSeries)
    ensures BarsOf(series, name, groups)
  {
    var names: seq<string> := [];
    var values: seq<int> := [];
    var pending := groups.Keys;
    while pending != {}
      invariant pending <= groups.Keys
      invariant |names| == |values|
      invariant |names| + |pending| == |groups|
      invariant forall u :: u in names <==> u in groups.Keys - pending
      invariant forall i, j :: 0 <= i < j < |names| ==> names[i] != names[j]
      invariant forall i :: 0 <= i < |names| ==> names[i] in groups && values[i] == |groups[names[i]]|
      decreases |pending|
    {
      var user :| user in pending;
      names := names + [user];
      values := values + [|groups[user]|];
      pending := pending - {user};
    }
    assert groups.Keys - pending == groups.Keys;
    series := BarSeries(name, names, values);
  }

  /** The number of bars. */
  function Len(s: BarSeries): int
  {
    |s.Names|
  }

  /** The height of bar index; an index outside the bars is a run-time panic
      in the source. */
  function Value(s: BarSeries, index: int): int
    requires 0 <= index < |s.Values|
  {
    s.Values[index]
  }

  /** The first bar's height on both axes; an empty series is a run-time
      panic in the source. */
  function GetXY(s: BarSeries): (p: Point)
    requires |s.Values| > 0
    ensures p.X == p.Y == s.Values[0]
  {
    Point(s.Values[0], s.Values[0])
  }

  /** A series built from groups has one bar per group, and bar i is as high
      as the group it names. */
  lemma BarsMeasureGroups(s: BarSeries, name: string, groups: map<string, seq<Issue>>)
    requires BarsOf(s, name, groups)
    ensures Len(s) == |groups|
    ensures forall i :: 0 <= i < Len(s) ==> Value(s, i) == |groups[s.Names[i]]|
  {
  }
}
