/**
 * graphs.go: the graph compositions. Each builds its date maps, turns them
 * into series and hands the series, in a fixed order, to createLinePlot.
 * The returned plot is what would be drawn and saved.
 */
module Graphs {
  import opened Wrappers
  import opened Records
  import opened PullRequests
  import opened Helpers
  import Processing
  import opened NumOpenIssues
  import opened DateSeriesOps
  import opened Graph

  /** Go's zero time.Time (1 January of year 1, UTC) in Unix seconds, which
      getFirstDate yields for a map without keys. */
  const ZeroTime := -62135596800

  /** graphBugFixRate: the user's cumulative fix series, alone on the plot. */
  method GraphBugFixRate(allPulls: seq<PullRequest>, username: string, graphFileName: string)
    returns (plot: Result<LinePlot, string>)
    ensures plot.Success? && |plot.value.Series| == 1 && plot.value.Series[0].Dates?
    ensures plot.value.Title == "Cumulative bugs fixed over time by " + username
    ensures SeriesOf(plot.value.Series[0].dates, plot.value.Title, Processing.BugFixRate(allPulls, username))
  {
    var bugFixRate := Processing.GetBugFixRate(allPulls, username);
    var title := "Cumulative bugs fixed over time by " + username;
    var data := SeriesFromMap(title, bugFixRate);
    plot := CreateLinePlot(title, "Date", "Total Number of Issues Resolved", graphFileName, [Dates(data)]);
  }

  /** graphIssuesByDate: the open-issue count series, alone on the plot. */
  method GraphIssuesByDate(issues: seq<Issue>, graphFileName: string) returns (plot: Result<LinePlot, string>)
    ensures plot.Success? && |plot.value.Series| == 1 && plot.value.Series[0].Dates?
    ensures SeriesOf(plot.value.Series[0].dates, "Change in number of open bugs over time", OpenCounts(issues))
  {
    var issuesOpenedByDate := GetOpenIssuesByDate(issues);
    var title := "Change in number of open bugs over time";
    var data := SeriesFromMap(title, issuesOpenedByDate);
    plot := CreateLinePlot(title, "Date", "Number of open bugs", graphFileName, [Dates(data)]);
  }

  /** openedSeries and closedSeries are the cumulative opened and closed
      series of the whole collection. */
  ghost predicate Totals(openedSeries: PlotSeries, closedSeries: PlotSeries, issues: seq<Issue>)
  {
    openedSeries.Dates? && closedSeries.Dates? && Cumulative(openedSeries.dates, closedSeries.dates, issues, issues)
  }

  /** graphOpenedVsClosed: the cumulative opened series, then the cumulative
      closed series, of the whole collection. */
  method GraphOpenedVsClosed(issues: seq<Issue>, graphFileName: string) returns (plot: Result<LinePlot, string>)
    ensures plot.Success? && |plot.value.Series| == 2
    ensures Totals(plot.value.Series[0], plot.value.Series[1], issues)
  {
    var openedSeries, closedSeries := CumulativeSeries(issues, issues);
    var series := [Dates(openedSeries), Dates(closedSeries)];
    PlottablePair([], openedSeries, closedSeries);
    assert [] + series == series;
    plot := CreateLinePlot("Total issues opened and closed over time", "Date", "Number of open bugs",
                           graphFileName, series);
  }

  /** Where the windows of graphOpenedVsClosedForUser start: the user's first
      fix date, or the zero time when there is none. */
  ghost function WindowStart(pulls: seq<PullRequest>, userName: string): int
  {
    var dates := Processing.UserClosureDates(pulls, userName);
    if dates == {} then ZeroTime else SetMin(dates)
  }

  /** graphOpenedVsClosedForUser: the cumulative opened series of the issues
      created on or after the user's first fix date, the cumulative closed
      series of the issues closed on or after it, then the user's fix series.
      A user without fixes windows from the zero time, so nothing is cut. */
  method GraphOpenedVsClosedForUser(issues: seq<Issue>, pulls: seq<PullRequest>, userName: string, graphFileName: string)
    returns (plot: Result<LinePlot, string>)
    ensures plot.Success? && |plot.value.Series| == 3
    ensures var since, series := WindowStart(pulls, userName), plot.value.Series;
            && series[0].Dates? && series[1].Dates?
            && Cumulative(series[0].dates, series[1].dates, OpenedSince(issues, since), ClosedSince(issues, since))
            && series[2].Dates? && SeriesOf(series[2].dates, "Total fixed by " + userName, Processing.BugFixRate(pulls, userName))
  {
    var bugFixRate := Processing.GetBugFixRate(pulls, userName);
    var fixedSeries := SeriesFromMap("Total fixed by " + userName, bugFixRate);
    var first := GetFirstDate(bugFixRate);
    var dateFirstBugfix := if first.Some? then first.value else ZeroTime;
    ghost var openedSeries: DateSeries, closedSeries: DateSeries;
    plot, openedSeries, closedSeries := PlotSinceFirstFix(issues, dateFirstBugfix, fixedSeries, userName, graphFileName);
  }

  /** The series graphOpenedVsClosedForUsers draws for one user. */
  ghost predicate UserSeries(s: PlotSeries, pulls: seq<PullRequest>, userName: string)
  {
    s.Dates? && SeriesOf(s.dates, "Total fixed by " + userName, Processing.BugFixRate(pulls, userName))
  }

  /** The given series followed by the cumulative opened and closed series
      of the whole collection, handed to createLinePlot. */
  method PlotWithTotals(issues: seq<Issue>, userSeries: seq<PlotSeries>, title: string, yLabel: string, graphFileName: string)
    returns (plot: Result<LinePlot, string>)
    requires AllPlottable(userSeries)
    ensures plot.Success? && |plot.value.Series| == |userSeries| + 2
    ensures plot.value.Series[..|userSeries|] == userSeries
    ensures Totals(plot.value.Series[|userSeries|], plot.value.Series[|userSeries| + 1], issues)
  {
    var openedSeries, closedSeries := CumulativeSeries(issues, issues);
    var allSeries := userSeries + [Dates(openedSeries), Dates(closedSeries)];
    PlottablePair(userSeries, openedSeries, closedSeries);
    plot := CreateLinePlot(title, "Date", yLabel, graphFileName, allSeries);
  }

  /** graphOpenedVsClosedForUsers: one fix series per requested user, in
      argument order, then the cumulative opened and closed series. */
  method GraphOpenedVsClosedForUsers(issues: seq<Issue>, pulls: seq<PullRequest>, graphFileName: string, users: seq<string>)
    returns (plot: Result<LinePlot, string>)
    ensures plot.Success? && |plot.value.Series| == |users| + 2
    ensures forall k :: 0 <= k < |users| ==> UserSeries(plot.value.Series[k], pulls, users[k])
    ensures Totals(plot.value.Series[|users|], plot.value.Series[|users| + 1], issues)
  {
    var userSeries: seq<PlotSeries> := [];
    for i := 0 to |users|
      invariant |userSeries| == i
      invariant forall k :: 0 <= k < i ==> UserSeries(userSeries[k], pulls, users[k])
    {
      var newSeries := FixSeries(pulls, users[i]);
      userSeries := userSeries + [newSeries];
    }
    plot := PlotWithTotals(issues, userSeries, "Total issues opened and closed over time", "Number of bugs",
                           graphFileName);
    assert forall k :: 0 <= k < |users| ==> plot.value.Series[k] == userSeries[k] by {
      assert plot.value.Series[..|users|] == userSeries;
    }
  }

  /** The loop body of graphOpenedVsClosedForUsers: the cumulative fix
      series of one user. */
  method FixSeries(pulls: seq<PullRequest>, userName: string) returns (s: PlotSeries)
    ensures UserSeries(s, pulls, userName)
  {
    var rate := Processing.GetBugFixRate(pulls, userName);
    var newSeries := SeriesFromMap("Total fixed by " + userName, rate);
    s := Dates(newSeries);
  }

  /** The value at the last date of a map, or 0 (the zero value of a missing
      key) when the map is empty. */
  ghost function LastValue(m: map<int, int>): int
  {
    if m.Keys == {} then 0 else m[SetMax(m.Keys)]
  }

  /** Whether graphBugfixRateByUser draws a series for userName. */
  ghost predicate Selected(pulls: seq<PullRequest>, minN: int, userName: string)
  {
    userName in Processing.Logins(pulls) && LastValue(Processing.BugFixRate(pulls, userName)) >= minN
  }

  /** The value at the last date of a cumulative pull-request map is the
      number of closed pull requests, so a user is selected exactly when they
      closed at least minN pull requests. */
  lemma SelectedMeansClosedCount(pulls: seq<PullRequest>, minN: int, userName: string)
    requires userName in Processing.Logins(pulls)
    ensures Selected(pulls, minN, userName) <==>
            Processing.ClosedPullCount(Processing.AnnotateAll(Processing.PullsOf(pulls, userName))) >= minN
  {
    var annotated := Processing.AnnotateAll(Processing.PullsOf(pulls, userName));
    var m := Processing.BugFixRate(pulls, userName);
    assert m.Keys == Processing.PullClosureDates(annotated);
    if Processing.PullClosureDates(annotated) != {} {
      assert LastValue(m) == Processing.CumPullCounts(annotated)[SetMax(Processing.PullClosureDates(annotated))];
      Processing.LastValueCountsClosedPulls(annotated);
    } else {
      assert LastValue(m) == 0;
      Processing.NoClosureDatesNoneClosed(annotated);
    }
  }

  /** One author's turn in graphBugfixRateByUser: their series when selected. */
  method SelectUser(pulls: seq<PullRequest>, minN: int, user: string, group: seq<AnnotatedPull>)
    returns (s: Option<DateSeries>)
    requires user in Processing.Logins(pulls)
    requires group == Processing.AnnotateAll(Processing.PullsOf(pulls, user))
    ensures s.Some? <==> Selected(pulls, minN, user)
    ensures s.Some? ==> s.value.Name == user && AuthorSeries(s.value, pulls, minN)
  {
    var issuesByDate := Processing.GetCumIssuesByDate(group);
    var last := GetLastDate(issuesByDate);
    var numBugs := if last.Some? then issuesByDate[last.value] else 0;
    assert numBugs == LastValue(Processing.BugFixRate(pulls, user));
    if numBugs >= minN {
      var seriesTitle := user;
      var series := SeriesFromMap(seriesTitle, issuesByDate);
      return Some(series);
    }
    return None;
  }

  /** The base-ten numeral of n, as %d prints it in the title of
      graphBugfixRateByUser: a minus sign for a negative n, then digits. */
  function Decimal(n: int): (r: string)
    ensures |r| >= 1
    ensures n >= 0 ==> AllDigits(r)
    ensures n < 0 ==> r[0] == '-' && AllDigits(r[1..])
    decreases if n < 0 then 1 - n else n
  {
    if n < 0 then "-" + Decimal(-n)
    else if n < 10 then ["0123456789"[n]]
    else Decimal(n / 10) + ["0123456789"[n % 10]]
  }

  /** The character "0123456789"[d] is the digit of value d. */
  lemma DigitChar(d: int)
    requires 0 <= d < 10
    ensures IsDigit("0123456789"[d]) && ("0123456789"[d] - '0') as int == d
  {
    if d == 0 {} else if d == 1 {} else if d == 2 {} else if d == 3 {} else if d == 4 {}
    else if d == 5 {} else if d == 6 {} else if d == 7 {} else if d == 8 {} else {}
  }

  /** Reading back the numeral of a non-negative n gives n: Decimal is the
      inverse of the digit reading newPull applies to issue numbers. */
  lemma {:induction false} DecimalRoundTrip(n: int)
    requires n >= 0
    ensures AllDigits(Decimal(n)) && DecimalValue(Decimal(n)) == n
    decreases n
  {
    if n < 10 {
      DigitChar(n);
      var r := Decimal(n);
      assert r[..0] == [];
    } else {
      DecimalRoundTrip(n / 10);
      DigitChar(n % 10);
      var init := Decimal(n / 10);
      var r := Decimal(n);
      assert r[..|r| - 1] == init;
    }
  }

  /** s is the series of a selected author, built from their cumulative map. */
  ghost predicate AuthorSeries(s: DateSeries, pulls: seq<PullRequest>, minN: int)
  {
    Selected(pulls, minN, s.Name) && SeriesOf(s, s.Name, Processing.BugFixRate(pulls, s.Name))
  }

  /** series holds, each once, a series that fits for every name in done
      that is wanted, and nothing else. */
  ghost predicate ExactSelection(series: seq<DateSeries>, done: set<string>,
                                 wanted: string -> bool, fits: DateSeries -> bool)
  {
    && (forall k :: 0 <= k < |series| ==> series[k].Name in done && wanted(series[k].Name) && fits(series[k]))
    && (forall u :: u in done && wanted(u) ==> exists k :: 0 <= k < |series| && series[k].Name == u)
    && (forall j, k :: 0 <= j < k < |series| ==> series[j].Name != series[k].Name)
  }

  /** Visiting one more name keeps the selection exact. */
  lemma SelectionStep(series: seq<DateSeries>, done: set<string>, wanted: string -> bool, fits: DateSeries -> bool,
                      user: string, s: Option<DateSeries>)
    requires ExactSelection(series, done, wanted, fits) && user !in done
    requires s.Some? <==> wanted(user)
    requires s.Some? ==> s.value.Name == user && fits(s.value)
    ensures ExactSelection(series + if s.Some? then [s.value] else [], done + {user}, wanted, fits)
  {
    var next := series + if s.Some? then [s.value] else [];
    var all := done + {user};
    forall k | 0 <= k < |next| ensures next[k].Name in all && wanted(next[k].Name) && fits(next[k]) {
      if k < |series| {
        assert next[k] == series[k];
      }
    }
    forall u | u in all && wanted(u)
      ensures exists k :: 0 <= k < |next| && next[k].Name == u
    {
      if u == user {
        assert next[|next| - 1].Name == u;
      } else {
        var k :| 0 <= k < |series| && series[k].Name == u;
        assert next[k].Name == u;
      }
    }
    forall j, k | 0 <= j < k < |next| ensures next[j].Name != next[k].Name {
      if k < |series| {
        assert next[j] == series[j] && next[k] == series[k];
      } else {
        assert next[j] == series[j] && series[j].Name in done;
      }
    }
  }

  /** The date series inside plot series; any other kind shows as empty. */
  function DatesIn(series: seq<PlotSeries>): seq<DateSeries>
  {
    seq(|series|, i requires 0 <= i < |series| =>
      if series[i].Dates? then series[i].dates else DateSeries([], [], ""))
  }

  /** series holds exactly the series of the selected authors among done. */
  ghost predicate AuthorsAmong(series: seq<DateSeries>, done: set<string>, pulls: seq<PullRequest>, minN: int)
  {
    ExactSelection(series, done, u => Selected(pulls, minN, u), s => AuthorSeries(s, pulls, minN))
  }

  /** Visiting one more author keeps the selection exact. */
  lemma AuthorStep(series: seq<DateSeries>, done: set<string>, pulls: seq<PullRequest>, minN: int,
                   user: string, s: Option<DateSeries>)
    requires AuthorsAmong(series, done, pulls, minN) && user !in done
    requires s.Some? <==> Selected(pulls, minN, user)
    requires s.Some? ==> s.value.Name == user && AuthorSeries(s.value, pulls, minN)
    ensures AuthorsAmong(series + if s.Some? then [s.value] else [], done + {user}, pulls, minN)
  {
    SelectionStep(series, done, u => Selected(pulls, minN, u), s => AuthorSeries(s, pulls, minN), user, s);
  }

  /** The loop of graphBugfixRateByUser: the groups of pullsGroupedByUser
      visited in map order, keeping the series of each selected author. */
  method SelectAuthors(pulls: seq<PullRequest>, minN: int) returns (userSeries: seq<DateSeries>)
    ensures AuthorsAmong(userSeries, Processing.Logins(pulls), pulls, minN)
  {
    userSeries := [];
    var dataByUser := Processing.PullsGroupedByUser(pulls);
    var pending := dataByUser.Keys;
    while pending != {}
      invariant pending <= dataByUser.Keys
      invariant AuthorsAmong(userSeries, dataByUser.Keys - pending, pulls, minN)
      decreases |pending|
    {
      var user :| user in pending;
      userSeries := VisitAuthor(pulls, minN, user, dataByUser[user], userSeries, dataByUser.Keys - pending);
      assert dataByUser.Keys - (pending - {user}) == dataByUser.Keys - pending + {user};
      pending := pending - {user};
    }
    assert dataByUser.Keys - pending == Processing.Logins(pulls);
  }

  /** One iteration of graphBugfixRateByUser's loop: the series of user is
      appended when user is selected. */
  method VisitAuthor(pulls: seq<PullRequest>, minN: int, user: string, group: seq<AnnotatedPull>,
                     userSeries: seq<DateSeries>, ghost done: set<string>)
    returns (next: seq<DateSeries>)
    requires user in Processing.Logins(pulls) && user !in done
    requires group == Processing.AnnotateAll(Processing.PullsOf(pulls, user))
    requires AuthorsAmong(userSeries, done, pulls, minN)
    ensures AuthorsAmong(next, done + {user}, pulls, minN)
  {
    var selected := SelectUser(pulls, minN, user, group);
    AuthorStep(userSeries, done, pulls, minN, user, selected);
    if selected.Some? {
      next := userSeries + [selected.value];
    } else {
      next := userSeries;
      assert userSeries + [] == userSeries;
    }
  }

  /** Each date series wrapped as a plot series. */
  function AsDates(series: seq<DateSeries>): (r: seq<PlotSeries>)
    ensures |r| == |series| && DatesIn(r) == series
    ensures forall k :: 0 <= k < |r| ==> r[k].Dates?
  {
    seq(|series|, i requires 0 <= i < |series| => Dates(series[i]))
  }

  /** The series of selected authors have as many values as dates. */
  lemma AuthorsPlottable(series: seq<DateSeries>, done: set<string>, pulls: seq<PullRequest>, minN: int)
    requires AuthorsAmong(series, done, pulls, minN)
    ensures forall k :: 0 <= k < |series| ==> |series[k].X| == |series[k].Y|
  {
    forall k | 0 <= k < |series| ensures |series[k].X| == |series[k].Y| {
      assert AuthorSeries(series[k], pulls, minN);
    }
  }

  /** graphBugfixRateByUser: one series per selected author, visited in map
      order, each at most once; then the cumulative opened and closed series.
      An author is selected when the value at the last date of their
      cumulative pull-request map is at least minN. */
  method GraphBugfixRateByUser(issues: seq<Issue>, pulls: seq<PullRequest>, graphFileName: string, minN: int)
    returns (plot: Result<LinePlot, string>, ghost authors: seq<DateSeries>)
    ensures AuthorsAmong(authors, Processing.Logins(pulls), pulls, minN)
    ensures plot.Success? && |plot.value.Series| == |authors| + 2
    ensures plot.value.Series[..|authors|] == AsDates(authors)
    ensures Totals(plot.value.Series[|authors|], plot.value.Series[|authors| + 1], issues)
  {
    var userSeries := SelectAuthors(pulls, minN);
    AuthorsPlottable(userSeries, Processing.Logins(pulls), pulls, minN);
    plot := PlotWithTotals(issues, AsDates(userSeries),
      "Bugs fixed over time for all users who have fixed at least " + Decimal(minN) + " bugs",
      "Number of bugs", graphFileName);
    authors := userSeries;
  }
}
