/**
 * numOpenIssues.go: the three issue builders on top of the accumulation
 * primitive. Each seeds a zero at every date it keys on, then applies one
 * pass per issue. The counting functions below are the reference definitions
 * the builders are proved against.
 */
module NumOpenIssues {
  import opened Wrappers
  import opened Records
  import opened Helpers
  import opened Accumulator
  import Processing
  import opened DateSeriesOps
  import opened Graph

  /** Every creation date in the collection. */
  function CreationDates(issues: seq<Issue>): set<int>
  {
    set x | x in issues :: x.CreatedAt
  }

  /** Every closure date of a closed issue in the collection. */
  function ClosureDates(issues: seq<Issue>): set<int>
  {
    set x | x in issues && x.ClosedAt.Some? :: x.ClosedAt.value
  }

  /** The number of issues created on or before k. */
  function CreatedBy(issues: seq<Issue>, k: int): nat
  {
    if issues == [] then 0
    else
      CreatedBy(issues[..|issues| - 1], k) + if issues[|issues| - 1].CreatedAt <= k then 1 else 0
  }

  /** The number of issues closed on or before k. */
  function ClosedBy(issues: seq<Issue>, k: int): nat
  {
    if issues == [] then 0
    else
      var last := issues[|issues| - 1];
      ClosedBy(issues[..|issues| - 1], k) + if last.ClosedAt.Some? && last.ClosedAt.value <= k then 1 else 0
  }

  /** The number of issues open at instant k: created by then and not yet closed. */
  function OpenAt(issues: seq<Issue>, k: int): nat
  {
    if issues == [] then 0
    else
      var last := issues[|issues| - 1];
      var open := last.CreatedAt <= k && (last.ClosedAt.None? || k < last.ClosedAt.value);
      OpenAt(issues[..|issues| - 1], k) + if open then 1 else 0
  }

  /** Every closed issue in the collection was closed no earlier than it was opened. */
  predicate ClosedAfterCreated(issues: seq<Issue>)
  {
    forall x :: x in issues && x.ClosedAt.Some? ==> x.CreatedAt <= x.ClosedAt.value
  }

  /** Net open issues, keyed by creation date. */
  function OpenCounts(issues: seq<Issue>): map<int, int>
  {
    map k | k in CreationDates(issues) :: CreatedBy(issues, k) - ClosedBy(issues, k)
  }

  /** Issues opened so far, keyed by creation date. */
  function CumOpenedCounts(issues: seq<Issue>): map<int, int>
  {
    map k | k in CreationDates(issues) :: CreatedBy(issues, k)
  }

  /** Issues closed so far, keyed by closure date. */
  function CumClosedCounts(issues: seq<Issue>): map<int, int>
  {
    map k | k in ClosureDates(issues) :: ClosedBy(issues, k)
  }

  lemma CreationDatesSnoc(issues: seq<Issue>, i: nat)
    requires i < |issues|
    ensures CreationDates(issues[..i + 1]) == CreationDates(issues[..i]) + {issues[i].CreatedAt}
  {
    assert issues[..i + 1] == issues[..i] + [issues[i]];
  }

  lemma ClosureDatesSnoc(issues: seq<Issue>, i: nat)
    requires i < |issues|
    ensures ClosureDates(issues[..i + 1]) ==
            ClosureDates(issues[..i]) + if issues[i].ClosedAt.Some? then {issues[i].ClosedAt.value} else {}
  {
    assert issues[..i + 1] == issues[..i] + [issues[i]];
  }

  lemma CountsSnoc(issues: seq<Issue>, i: nat)
    requires i < |issues|
    ensures forall k :: CreatedBy(issues[..i + 1], k) ==
                        CreatedBy(issues[..i], k) + if issues[i].CreatedAt <= k then 1 else 0
    ensures forall k :: ClosedBy(issues[..i + 1], k) ==
                        ClosedBy(issues[..i], k) +
                        if issues[i].ClosedAt.Some? && issues[i].ClosedAt.value <= k then 1 else 0
  {
    assert issues[..i + 1][..i] == issues[..i];
  }

  /** The first pass of getOpenIssuesByDate and getCumOpenIssuesByDate: a
      zero at every creation date. */
  method ZeroAtCreationDates(issues: seq<Issue>) returns (byDate: map<int, int>)
    ensures byDate.Keys == CreationDates(issues)
    ensures forall k :: k in byDate ==> byDate[k] == 0
  {
    byDate := map[];
    for i := 0 to |issues|
      invariant byDate.Keys == CreationDates(issues[..i])
      invariant forall k :: k in byDate ==> byDate[k] == 0
    {
      CreationDatesSnoc(issues, i);
      byDate := byDate[issues[i].CreatedAt := 0];
    }
    assert issues[..|issues|] == issues;
  }

  /** getOpenIssuesByDate: keyed by creation dates only; the value at k is the
      number opened by k less the number closed by k. */
  method GetOpenIssuesByDate(issues: seq<Issue>) returns (byDate: map<int, int>)
    ensures byDate.Keys == CreationDates(issues)
    ensures byDate == OpenCounts(issues)
  {
    byDate := ZeroAtCreationDates(issues);
    for i := 0 to |issues|
      invariant byDate.Keys == CreationDates(issues)
      invariant forall k :: k in byDate ==> byDate[k] == CreatedBy(issues[..i], k) - ClosedBy(issues[..i], k)
    {
      var issue := issues[i];
      CountsSnoc(issues, i);
      byDate := IncrementAfterDate(byDate, issue.CreatedAt);
      assert forall k :: k in byDate ==>
        byDate[k] == CreatedBy(issues[..i + 1], k) - ClosedBy(issues[..i], k);
      if issue.ClosedAt.Some? {
        byDate := DecrementAfterDate(byDate, issue.ClosedAt.value);
      }
    }
    assert issues[..|issues|] == issues;
    assert forall k :: k in byDate ==> byDate[k] == OpenCounts(issues)[k];
  }

  /** getCumOpenIssuesByDate: keyed by creation dates; the value at k is the
      number of issues opened on or before k. */
  method GetCumOpenIssuesByDate(issues: seq<Issue>) returns (byDate: map<int, int>)
    ensures byDate.Keys == CreationDates(issues)
    ensures byDate == CumOpenedCounts(issues)
  {
    byDate := ZeroAtCreationDates(issues);
    for i := 0 to |issues|
      invariant byDate.Keys == CreationDates(issues)
      invariant forall k :: k in byDate ==> byDate[k] == CreatedBy(issues[..i], k)
    {
      CountsSnoc(issues, i);
      byDate := IncrementAfterDate(byDate, issues[i].CreatedAt);
    }
    assert issues[..|issues|] == issues;
  }

  /** getCumIssuesClosedByDate: keyed by the closure dates of closed issues
      only; the value at k is the number of issues closed on or before k. */
  method GetCumIssuesClosedByDate(issues: seq<Issue>) returns (closed: map<int, int>)
    ensures closed.Keys == ClosureDates(issues)
    ensures closed == CumClosedCounts(issues)
  {
    closed := map[];
    for i := 0 to |issues|
      invariant closed.Keys == ClosureDates(issues[..i])
      invariant forall k :: k in closed ==> closed[k] == 0
    {
      ClosureDatesSnoc(issues, i);
      if issues[i].ClosedAt.Some? {
        closed := closed[issues[i].ClosedAt.value := 0];
      }
    }
    assert issues[..|issues|] == issues;
    for i := 0 to |issues|
      invariant closed.Keys == ClosureDates(issues)
      invariant forall k :: k in closed ==> closed[k] == ClosedBy(issues[..i], k)
    {
      CountsSnoc(issues, i);
      if issues[i].ClosedAt.Some? {
        closed := IncrementAfterDate(closed, issues[i].ClosedAt.value);
      }
    }
  }

  /** An empty collection gives three empty maps. */
  lemma EmptyIssues()
    ensures OpenCounts([]) == map[] && CumOpenedCounts([]) == map[] && CumClosedCounts([]) == map[]
  {
  }

  lemma {:induction false} CreatedByMonotone(issues: seq<Issue>, a: int, b: int)
    requires a <= b
    ensures CreatedBy(issues, a) <= CreatedBy(issues, b)
  {
    if issues != [] {
      CreatedByMonotone(issues[..|issues| - 1], a, b);
    }
  }

  lemma {:induction false} ClosedByMonotone(issues: seq<Issue>, a: int, b: int)
    requires a <= b
    ensures ClosedBy(issues, a) <= ClosedBy(issues, b)
  {
    if issues != [] {
      ClosedByMonotone(issues[..|issues| - 1], a, b);
    }
  }

  /** The cumulative-opened map never decreases along its dates. */
  lemma CumOpenedMonotone(issues: seq<Issue>)
    ensures Monotone(CumOpenedCounts(issues))
  {
    forall a, b | a in CumOpenedCounts(issues) && b in CumOpenedCounts(issues) && a <= b
      ensures CumOpenedCounts(issues)[a] <= CumOpenedCounts(issues)[b]
    {
      CreatedByMonotone(issues, a, b);
    }
  }

  /** The cumulative-closed map never decreases along its dates. */
  lemma CumClosedMonotone(issues: seq<Issue>)
    ensures Monotone(CumClosedCounts(issues))
  {
    forall a, b | a in CumClosedCounts(issues) && b in CumClosedCounts(issues) && a <= b
      ensures CumClosedCounts(issues)[a] <= CumClosedCounts(issues)[b]
    {
      ClosedByMonotone(issues, a, b);
    }
  }

  /** Opened-by-k minus closed-by-k is the number of issues open at k, when no
      issue was closed before it was opened. */
  lemma {:induction false} OpenedLessClosedIsOpen(issues: seq<Issue>, k: int)
    requires ClosedAfterCreated(issues)
    ensures CreatedBy(issues, k) - ClosedBy(issues, k) == OpenAt(issues, k)
  {
    if issues != [] {
      var init := issues[..|issues| - 1];
      assert forall x :: x in init ==> x in issues;
      OpenedLessClosedIsOpen(init, k);
      assert issues[|issues| - 1] in issues;
    }
  }

  /** So the open-count map is a gauge of the issues open at each date, and is
      never negative. */
  lemma OpenCountsGauge(issues: seq<Issue>)
    requires ClosedAfterCreated(issues)
    ensures forall k :: k in OpenCounts(issues) ==> OpenCounts(issues)[k] == OpenAt(issues, k) >= 0
  {
    forall k | k in OpenCounts(issues)
      ensures OpenCounts(issues)[k] == OpenAt(issues, k)
    {
      OpenedLessClosedIsOpen(issues, k);
    }
  }

  /** Open = opened - closed at every date the open-count and closed maps share. */
  lemma Conservation(issues: seq<Issue>, k: int)
    requires k in OpenCounts(issues) && k in CumClosedCounts(issues)
    ensures k in CumOpenedCounts(issues)
    ensures OpenCounts(issues)[k] == CumOpenedCounts(issues)[k] - CumClosedCounts(issues)[k]
  {
  }

  /** The issues opened on or after since. */
  function OpenedSince(issues: seq<Issue>, since: int): (r: seq<Issue>)
    ensures forall x :: x in r <==> x in issues && x.CreatedAt >= since
  {
    Filter(issues, (x: Issue) => x.CreatedAt >= since)
  }

  /** The closed issues closed on or after since. */
  function ClosedSince(issues: seq<Issue>, since: int): (r: seq<Issue>)
    ensures forall x :: x in r <==> x in issues && x.ClosedAt.Some? && x.ClosedAt.value >= since
  {
    Filter(issues, (x: Issue) => x.ClosedAt.Some? && x.ClosedAt.value >= since)
  }

  /** graphOpenedVsClosedForUser, in the revision whose getBugFixRate returns
      the sorted dates and their counts: nothing is plotted (None) when the
      user has no fix dates; otherwise the cumulative opened and closed
      series, windowed from the first fix date, then the user's fix series. */
  method GraphOpenedVsClosedForUser(issues: seq<Issue>, pulls: seq<PullRequest>, userName: string, graphFileName: string)
    returns (plot: Option<Result<LinePlot, string>>)
    ensures plot.None? <==> Processing.UserClosureDates(pulls, userName) == {}
    ensures plot.Some? ==> plot.value.Success? && |plot.value.value.Series| == 3
    ensures plot.Some? ==>
              var since := SetMin(Processing.UserClosureDates(pulls, userName));
              var series := plot.value.value.Series;
              && series[0].Dates? && series[1].Dates?
              && Cumulative(series[0].dates, series[1].dates, OpenedSince(issues, since), ClosedSince(issues, since))
              && series[2].Dates? && SeriesOf(series[2].dates, "Total fixed by " + userName, Processing.BugFixRate(pulls, userName))
  {
    var rate := Processing.GetBugFixRate(pulls, userName);
    var fixedSeries := SeriesFromMap("Total fixed by " + userName, rate);
    FirstDateIsEarliest(fixedSeries, "Total fixed by " + userName, rate);
    if |fixedSeries.X| < 1 {
      return None;
    }
    var dateFirstBugfix := fixedSeries.X[0];
    var result, openedSeries, closedSeries := PlotSinceFirstFix(issues, dateFirstBugfix, fixedSeries, userName, graphFileName);
    return Some(result);
  }

  /** openedSeries is the cumulative opened series of openedIssues and
      closedSeries the cumulative closed series of closedIssues. */
  ghost predicate Cumulative(openedSeries: DateSeries, closedSeries: DateSeries,
                             openedIssues: seq<Issue>, closedIssues: seq<Issue>)
  {
    && SeriesOf(openedSeries, "Total issues opened", CumOpenedCounts(openedIssues))
    && SeriesOf(closedSeries, "Total issues closed", CumClosedCounts(closedIssues))
  }

  /** The two cumulative series every opened-versus-closed graph draws. */
  method CumulativeSeries(openedIssues: seq<Issue>, closedIssues: seq<Issue>)
    returns (openedSeries: DateSeries, closedSeries: DateSeries)
    ensures Cumulative(openedSeries, closedSeries, openedIssues, closedIssues)
    ensures |openedSeries.X| == |openedSeries.Y| && |closedSeries.X| == |closedSeries.Y|
  {
    var openedMap := GetCumOpenIssuesByDate(openedIssues);
    openedSeries := SeriesFromMap("Total issues opened", openedMap);
    var closedMap := GetCumIssuesClosedByDate(closedIssues);
    closedSeries := SeriesFromMap("Total issues closed", closedMap);
  }

  /** The plot of graphOpenedVsClosedForUser once the first fix date is known:
      opened and closed counts of the windowed issues, then the fix series. */
  method PlotSinceFirstFix(issues: seq<Issue>, since: int, fixedSeries: DateSeries, userName: string, graphFileName: string)
    returns (plot: Result<LinePlot, string>, ghost openedSeries: DateSeries, ghost closedSeries: DateSeries)
    requires |fixedSeries.X| == |fixedSeries.Y|
    ensures Cumulative(openedSeries, closedSeries, OpenedSince(issues, since), ClosedSince(issues, since))
    ensures plot.Success? && plot.value.Series == [Dates(openedSeries), Dates(closedSeries), Dates(fixedSeries)]
  {
    var openedAfterDate := OpenedSince(issues, since);
    var closedAfterDate := ClosedSince(issues, since);
    var openedData, closedData := CumulativeSeries(openedAfterDate, closedAfterDate);
    openedSeries, closedSeries := openedData, closedData;
    var series := [Dates(openedData), Dates(closedData), Dates(fixedSeries)];
    PlottableTriple(openedData, closedData, fixedSeries);
    plot := CreateLinePlot(
      "Total issues opened and closed over time since " + userName + "'s first bugfix",
      "Date", "Number of open bugs", graphFileName, series);
  }
}
