/**
 * processing.go: selecting and grouping pull requests by author, and the two
 * date maps built from closed pull requests. processing.go also carries
 * verbatim copies of the three issue builders of numOpenIssues.go; those are
 * modelled once, in NumOpenIssues.
 */
module Processing {
  import opened Wrappers
  import opened Records
  import opened Helpers
  import opened Accumulator
  import opened PullRequests

  /** The pull requests whose author login is exactly login, in input order. */
  function PullsOf(all: seq<PullRequest>, login: string): (r: seq<PullRequest>)
    ensures |r| <= |all|
    ensures forall p :: p in r <==> p in all && p.Login == login
  {
    if all == [] then []
    else
      var init, last := all[..|all| - 1], all[|all| - 1];
      assert all == init + [last];
      var kept := PullsOf(init, login);
      if last.Login == login then kept + [last] else kept
  }

  /** Every author login in the collection. */
  function Logins(all: seq<PullRequest>): set<string>
  {
    set p | p in all :: p.Login
  }

  /** newPull applied to each element. */
  function AnnotateAll(pulls: seq<PullRequest>): seq<AnnotatedPull>
  {
    seq(|pulls|, i requires 0 <= i < |pulls| => Annotate(pulls[i]))
  }

  lemma AnnotateAllSnoc(pulls: seq<PullRequest>, p: PullRequest)
    ensures AnnotateAll(pulls + [p]) == AnnotateAll(pulls) + [Annotate(p)]
  {
  }

  lemma PullsOfSnoc(all: seq<PullRequest>, i: nat, login: string)
    requires i < |all|
    ensures PullsOf(all[..i + 1], login) ==
            PullsOf(all[..i], login) + if all[i].Login == login then [all[i]] else []
  {
    assert all[..i + 1][..i] == all[..i];
  }

  /** pullsByUser: exactly the given user's pull requests, in input order,
      each annotated by newPull. */
  method PullsByUser(username: string, allPulls: seq<PullRequest>) returns (pulls: seq<AnnotatedPull>)
    ensures |pulls| <= |allPulls|
    ensures forall p :: p in pulls <==> p.pull in allPulls && p.pull.Login == username && p == Annotate(p.pull)
    ensures pulls == AnnotateAll(PullsOf(allPulls, username))
  {
    pulls := [];
    for i := 0 to |allPulls|
      invariant pulls == AnnotateAll(PullsOf(allPulls[..i], username))
    {
      var pull := allPulls[i];
      GroupStep(allPulls, i, pulls, username);
      if pull.Login == username {
        var annotated := NewPull(pull);
        pulls := pulls + [annotated];
      }
    }
    assert allPulls[..|allPulls|] == allPulls;
    AnnotateAllMembers(PullsOf(allPulls, username));
  }

  /** An annotated list holds exactly the annotations of its sources. */
  lemma AnnotateAllMembers(pulls: seq<PullRequest>)
    ensures forall a :: a in AnnotateAll(pulls) <==> a.pull in pulls && a == Annotate(a.pull)
  {
    forall a: AnnotatedPull | a.pull in pulls && a == Annotate(a.pull)
      ensures a in AnnotateAll(pulls)
    {
      var i :| 0 <= i < |pulls| && pulls[i] == a.pull;
      assert AnnotateAll(pulls)[i] == a;
    }
  }

  lemma LoginsSnoc(all: seq<PullRequest>, i: nat)
    requires i < |all|
    ensures Logins(all[..i + 1]) == Logins(all[..i]) + {all[i].Login}
  {
    assert all[..i + 1] == all[..i] + [all[i]];
  }

  /** Adding pull request i to its author's group extends the grouping of
      the first i pull requests to the first i + 1. */
  lemma GroupsSnoc(all: seq<PullRequest>, i: nat, result: map<string, seq<AnnotatedPull>>)
    requires i < |all|
    requires result.Keys == Logins(all[..i])
    requires forall u :: u in result ==> result[u] == AnnotateAll(PullsOf(all[..i], u))
    ensures var login := all[i].Login;
            var group := if login in result then result[login] else [];
            var next := result[login := group + [Annotate(all[i])]];
            && next.Keys == Logins(all[..i + 1])
            && forall u :: u in next ==> next[u] == AnnotateAll(PullsOf(all[..i + 1], u))
  {
    var login := all[i].Login;
    var group := if login in result then result[login] else [];
    var next := result[login := group + [Annotate(all[i])]];
    LoginsSnoc(all, i);
    forall u | u in next ensures next[u] == AnnotateAll(PullsOf(all[..i + 1], u)) {
      if u == login {
        if login !in result {
          NoPullsOf(all[..i], login);
        }
        GroupStep(all, i, group, u);
      } else {
        GroupStep(all, i, result[u], u);
      }
    }
  }

  /** The group of one login, extended by pull request i when it is theirs. */
  lemma GroupStep(all: seq<PullRequest>, i: nat, group: seq<AnnotatedPull>, u: string)
    requires i < |all|
    requires group == AnnotateAll(PullsOf(all[..i], u))
    ensures (if all[i].Login == u then group + [Annotate(all[i])] else group) == AnnotateAll(PullsOf(all[..i + 1], u))
  {
    PullsOfSnoc(all, i, u);
    if all[i].Login == u {
      AnnotateAllSnoc(PullsOf(all[..i], u), all[i]);
    }
  }

  /** pullsGroupedByUser: one group per author login, holding that author's
      pull requests in input order. */
  method PullsGroupedByUser(allPulls: seq<PullRequest>) returns (result: map<string, seq<AnnotatedPull>>)
    ensures result.Keys == Logins(allPulls)
    ensures forall u {:trigger PullsOf(allPulls, u)} :: u in result ==> result[u] == AnnotateAll(PullsOf(allPulls, u))
  {
    result := map[];
    for i := 0 to |allPulls|
      invariant result.Keys == Logins(allPulls[..i])
      invariant forall u {:trigger PullsOf(allPulls[..i], u)} :: u in result ==> result[u] == AnnotateAll(PullsOf(allPulls[..i], u))
    {
      var pull := allPulls[i];
      GroupsSnoc(allPulls, i, result);
      var group := if pull.Login in result then result[pull.Login] else [];
      var annotated := NewPull(pull);
      result := result[pull.Login := group + [annotated]];
    }
    assert allPulls[..|allPulls|] == allPulls;
  }

  /** A login that authored nothing has no pull requests. */
  lemma {:induction false} NoPullsOf(all: seq<PullRequest>, login: string)
    requires login !in Logins(all)
    ensures PullsOf(all, login) == []
  {
    if all != [] {
      var n := |all| - 1;
      assert all[..n + 1] == all;
      LoginsSnoc(all, n);
      NoPullsOf(all[..n], login);
    }
  }

  /** Each pull request lies in the group of its own login and in no other. */
  lemma GroupsPartition(all: seq<PullRequest>, p: PullRequest, u: string)
    requires p in all
    ensures Annotate(p) in AnnotateAll(PullsOf(all, u)) <==> u == p.Login
  {
    AnnotateAllMembers(PullsOf(all, u));
  }

  /** The group sizes add up to the number of pull requests. */
  lemma {:induction false} GroupSizesSum(all: seq<PullRequest>)
    ensures SumOver(Logins(all), u => |PullsOf(all, u)|) == |all|
  {
    if all != [] {
      var n := |all| - 1;
      var init, last := all[..n], all[n];
      assert all[..n + 1] == all;
      GroupSizesSum(init);
      LoginsSnoc(all, n);
      forall u ensures |PullsOf(all, u)| == |PullsOf(init, u)| + if u == last.Login then 1 else 0 {
        PullsOfSnoc(all, n, u);
      }
      if last.Login !in Logins(init) {
        NoPullsOf(init, last.Login);
      }
      SumOverBump(Logins(init), u => |PullsOf(init, u)|, u => |PullsOf(all, u)|, last.Login, 1);
    }
  }

  /** The closure dates of the closed pull requests. */
  function PullClosureDates(pulls: seq<AnnotatedPull>): set<int>
  {
    set p | p in pulls && p.pull.ClosedAt.Some? :: p.pull.ClosedAt.value
  }

  /** The number of pull requests closed on or before k. */
  function ClosedPullsBy(pulls: seq<AnnotatedPull>, k: int): nat
  {
    if pulls == [] then 0
    else
      var last := pulls[|pulls| - 1].pull;
      ClosedPullsBy(pulls[..|pulls| - 1], k) + if last.ClosedAt.Some? && last.ClosedAt.value <= k then 1 else 0
  }

  /** The number of closed pull requests. */
  function ClosedPullCount(pulls: seq<AnnotatedPull>): nat
  {
    if pulls == [] then 0
    else ClosedPullCount(pulls[..|pulls| - 1]) + if pulls[|pulls| - 1].pull.ClosedAt.Some? then 1 else 0
  }

  /** The issue references of the pull requests closed exactly at d. */
  function RefsClosedAt(pulls: seq<AnnotatedPull>, d: int): nat
  {
    if pulls == [] then 0
    else
      var last := pulls[|pulls| - 1];
      RefsClosedAt(pulls[..|pulls| - 1], d) +
      if last.pull.ClosedAt == Some(d) then |last.referencedIssues| else 0
  }

  /** The issue references of all closed pull requests. */
  function TotalClosedRefs(pulls: seq<AnnotatedPull>): nat
  {
    if pulls == [] then 0
    else
      var last := pulls[|pulls| - 1];
      TotalClosedRefs(pulls[..|pulls| - 1]) + if last.pull.ClosedAt.Some? then |last.referencedIssues| else 0
  }

  /** Closed pull requests so far, keyed by closure date. */
  function CumPullCounts(pulls: seq<AnnotatedPull>): map<int, int>
  {
    map k | k in PullClosureDates(pulls) :: ClosedPullsBy(pulls, k)
  }

  /** Issue references of the pull requests closed at each closure date. */
  function RefsByDate(pulls: seq<AnnotatedPull>): map<int, int>
  {
    map d | d in PullClosureDates(pulls) :: RefsClosedAt(pulls, d)
  }

  lemma PullClosureDatesSnoc(pulls: seq<AnnotatedPull>, i: nat)
    requires i < |pulls|
    ensures PullClosureDates(pulls[..i + 1]) ==
            PullClosureDates(pulls[..i]) + if pulls[i].pull.ClosedAt.Some? then {pulls[i].pull.ClosedAt.value} else {}
  {
    assert pulls[..i + 1] == pulls[..i] + [pulls[i]];
  }

  lemma PullCountsSnoc(pulls: seq<AnnotatedPull>, i: nat)
    requires i < |pulls|
    ensures forall k :: ClosedPullsBy(pulls[..i + 1], k) == ClosedPullsBy(pulls[..i], k) +
              if pulls[i].pull.ClosedAt.Some? && pulls[i].pull.ClosedAt.value <= k then 1 else 0
    ensures forall d :: RefsClosedAt(pulls[..i + 1], d) == RefsClosedAt(pulls[..i], d) +
              if pulls[i].pull.ClosedAt == Some(d) then |pulls[i].referencedIssues| else 0
  {
    assert pulls[..i + 1][..i] == pulls[..i];
  }

  /** getCumIssuesByDate: keyed by the closure dates of closed pull requests;
      the value at k counts the pull requests closed on or before k (one per
      pull request, whatever the number of issues it references). */
  method GetCumIssuesByDate(pulls: seq<AnnotatedPull>) returns (issues: map<int, int>)
    ensures issues.Keys == PullClosureDates(pulls)
    ensures issues == CumPullCounts(pulls)
  {
    issues := map[];
    for i := 0 to |pulls|
      invariant issues.Keys == PullClosureDates(pulls[..i])
      invariant forall k :: k in issues ==> issues[k] == 0
    {
      PullClosureDatesSnoc(pulls, i);
      if pulls[i].pull.ClosedAt.Some? {
        issues := issues[pulls[i].pull.ClosedAt.value := 0];
      }
    }
    assert pulls[..|pulls|] == pulls;
    for i := 0 to |pulls|
      invariant issues.Keys == PullClosureDates(pulls)
      invariant forall k :: k in issues ==> issues[k] == ClosedPullsBy(pulls[..i], k)
    {
      PullCountsSnoc(pulls, i);
      if pulls[i].pull.ClosedAt.Some? {
        issues := IncrementAfterDate(issues, pulls[i].pull.ClosedAt.value);
      }
    }
    assert pulls[..|pulls|] == pulls;
    assert forall k :: k in issues ==> issues[k] == CumPullCounts(pulls)[k];
  }

  /** getIssuesByDate: keyed by the closure dates of closed pull requests; the
      value at d is the number of issue references of the pull requests closed
      exactly at d. Open pull requests are skipped. */
  method GetIssuesByDate(pulls: seq<AnnotatedPull>) returns (issues: map<int, int>)
    ensures issues.Keys == PullClosureDates(pulls)
    ensures issues == RefsByDate(pulls)
  {
    issues := map[];
    for i := 0 to |pulls|
      invariant issues.Keys == PullClosureDates(pulls[..i])
      invariant forall d :: d in issues ==> issues[d] == RefsClosedAt(pulls[..i], d)
    {
      var pull := pulls[i];
      PullClosureDatesSnoc(pulls, i);
      PullCountsSnoc(pulls, i);
      if pull.pull.ClosedAt.Some? {
        var d := pull.pull.ClosedAt.value;
        if d !in issues {
          RefsClosedAtUnkeyed(pulls[..i], d);
        }
        var current := if d in issues then issues[d] else 0;
        issues := issues[d := current + |pull.referencedIssues|];
      }
    }
    assert pulls[..|pulls|] == pulls;
    assert forall d :: d in issues ==> issues[d] == RefsByDate(pulls)[d];
  }

  /** No references are counted at a date no pull request was closed at. */
  lemma {:induction false} RefsClosedAtUnkeyed(pulls: seq<AnnotatedPull>, d: int)
    requires d !in PullClosureDates(pulls)
    ensures RefsClosedAt(pulls, d) == 0
  {
    if pulls != [] {
      var n := |pulls| - 1;
      PullClosureDatesSnoc(pulls, n);
      assert pulls[..n + 1] == pulls;
      RefsClosedAtUnkeyed(pulls[..n], d);
    }
  }

  lemma {:induction false} ClosedPullsByMonotone(pulls: seq<AnnotatedPull>, a: int, b: int)
    requires a <= b
    ensures ClosedPullsBy(pulls, a) <= ClosedPullsBy(pulls, b)
  {
    if pulls != [] {
      ClosedPullsByMonotone(pulls[..|pulls| - 1], a, b);
    }
  }

  /** The cumulative pull-request map never decreases along its dates. */
  lemma CumPullCountsMonotone(pulls: seq<AnnotatedPull>)
    ensures Monotone(CumPullCounts(pulls))
  {
    forall a, b | a in CumPullCounts(pulls) && b in CumPullCounts(pulls) && a <= b
      ensures CumPullCounts(pulls)[a] <= CumPullCounts(pulls)[b]
    {
      ClosedPullsByMonotone(pulls, a, b);
    }
  }

  /** On or after the last closure date every closed pull request is counted. */
  lemma {:induction false} ClosedPullsByAll(pulls: seq<AnnotatedPull>, k: int)
    requires forall d :: d in PullClosureDates(pulls) ==> d <= k
    ensures ClosedPullsBy(pulls, k) == ClosedPullCount(pulls)
  {
    if pulls != [] {
      var n := |pulls| - 1;
      PullClosureDatesSnoc(pulls, n);
      assert pulls[..n + 1] == pulls;
      ClosedPullsByAll(pulls[..n], k);
    }
  }

  /** So the value at the latest date is the number of closed pull requests. */
  lemma LastValueCountsClosedPulls(pulls: seq<AnnotatedPull>)
    requires PullClosureDates(pulls) != {}
    ensures CumPullCounts(pulls)[SetMax(PullClosureDates(pulls))] == ClosedPullCount(pulls)
  {
    ClosedPullsByAll(pulls, SetMax(PullClosureDates(pulls)));
  }

  /** Without closure dates no pull request is closed. */
  lemma {:induction false} NoClosureDatesNoneClosed(pulls: seq<AnnotatedPull>)
    requires PullClosureDates(pulls) == {}
    ensures ClosedPullCount(pulls) == 0
  {
    if pulls != [] {
      var n := |pulls| - 1;
      PullClosureDatesSnoc(pulls, n);
      assert pulls[..n + 1] == pulls;
      NoClosureDatesNoneClosed(pulls[..n]);
    }
  }

  /** The per-date reference counts add up to all references of closed pull requests. */
  lemma {:induction false} RefsByDateSum(pulls: seq<AnnotatedPull>)
    ensures SumValues(RefsByDate(pulls)) == TotalClosedRefs(pulls)
  {
    SumValuesOf(RefsByDate(pulls), d => RefsClosedAt(pulls, d));
    assert RefsByDate(pulls).Keys == PullClosureDates(pulls);
    RefsClosedAtSum(pulls);
  }

  lemma {:induction false} RefsClosedAtSum(pulls: seq<AnnotatedPull>)
    ensures SumOver(PullClosureDates(pulls), d => RefsClosedAt(pulls, d)) == TotalClosedRefs(pulls)
  {
    if pulls != [] {
      var n := |pulls| - 1;
      var init, last := pulls[..n], pulls[n];
      assert pulls[..n + 1] == pulls;
      RefsClosedAtSum(init);
      PullClosureDatesSnoc(pulls, n);
      PullCountsSnoc(pulls, n);
      if last.pull.ClosedAt.Some? {
        var c := last.pull.ClosedAt.value;
        if c !in PullClosureDates(init) {
          RefsClosedAtUnkeyed(init, c);
        }
        SumOverBump(PullClosureDates(init), d => RefsClosedAt(init, d), d => RefsClosedAt(pulls, d),
                    c, |last.referencedIssues|);
      } else {
        assert PullClosureDates(pulls) == PullClosureDates(init);
        assert TotalClosedRefs(pulls) == TotalClosedRefs(init);
        assert forall d :: RefsClosedAt(pulls, d) == RefsClosedAt(init, d);
        SumOverCongruent(PullClosureDates(init), d => RefsClosedAt(init, d), d => RefsClosedAt(pulls, d));
      }
    }
  }

  /** The number of the user's closed pull requests closed on or before k. */
  function UserClosedBy(all: seq<PullRequest>, login: string, k: int): nat
  {
    if all == [] then 0
    else
      var last := all[|all| - 1];
      UserClosedBy(all[..|all| - 1], login, k) +
      if last.Login == login && last.ClosedAt.Some? && last.ClosedAt.value <= k then 1 else 0
  }

  /** The closure dates of the user's closed pull requests. */
  function UserClosureDates(all: seq<PullRequest>, login: string): set<int>
  {
    set p | p in all && p.Login == login && p.ClosedAt.Some? :: p.ClosedAt.value
  }

  /** Counting the annotated user's pulls is counting the user's pulls. */
  lemma {:induction false} UserCounts(all: seq<PullRequest>, login: string, k: int)
    ensures ClosedPullsBy(AnnotateAll(PullsOf(all, login)), k) == UserClosedBy(all, login, k)
  {
    if all != [] {
      var n := |all| - 1;
      assert all[..n + 1] == all;
      UserCounts(all[..n], login, k);
      PullsOfSnoc(all, n, login);
      var before := AnnotateAll(PullsOf(all[..n], login));
      if all[n].Login == login {
        AnnotateAllSnoc(PullsOf(all[..n], login), all[n]);
        assert (before + [Annotate(all[n])])[..|before|] == before;
      }
    }
  }

  /** The dates of the user's annotated closed pulls are the user's closure dates. */
  lemma UserDates(all: seq<PullRequest>, login: string)
    ensures PullClosureDates(AnnotateAll(PullsOf(all, login))) == UserClosureDates(all, login)
  {
    var annotated := AnnotateAll(PullsOf(all, login));
    AnnotateAllMembers(PullsOf(all, login));
    forall d | d in UserClosureDates(all, login) ensures d in PullClosureDates(annotated) {
      var p :| p in all && p.Login == login && p.ClosedAt.Some? && p.ClosedAt.value == d;
      assert Annotate(p) in annotated;
    }
  }

  /** The cumulative map of one user's pull requests. */
  function BugFixRate(all: seq<PullRequest>, login: string): map<int, int>
  {
    CumPullCounts(AnnotateAll(PullsOf(all, login)))
  }

  /** getBugFixRate: the cumulative map of the given user's pull requests. It
      is keyed by the closure dates of that user's closed pull requests, and
      its value at k is the number of them closed on or before k. */
  method GetBugFixRate(allPulls: seq<PullRequest>, username: string) returns (rate: map<int, int>)
    ensures rate.Keys == UserClosureDates(allPulls, username)
    ensures forall k :: k in rate ==> rate[k] == UserClosedBy(allPulls, username, k)
    ensures rate == BugFixRate(allPulls, username)
  {
    var pulls := PullsByUser(username, allPulls);
    rate := GetCumIssuesByDate(pulls);
    UserDates(allPulls, username);
    forall k | k in rate ensures rate[k] == UserClosedBy(allPulls, username, k) {
      UserCounts(allPulls, username, k);
    }
  }
}
