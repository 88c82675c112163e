/**
 * numIssuesFixed.go: an earlier revision of the tool that counts the issues
 * one user's pull requests resolved. Its pull requests come from a query for
 * closed pull requests only, which is why getIssuesByDate reads ClosedAt
 * without a check; the model states that as a precondition.
 */
module NumIssuesFixed {
  import opened Wrappers
  import opened Records
  import opened Helpers
  import opened PullRequests
  import opened Processing
  import opened Util

  /** The issue references of all pull requests. */
  function TotalRefs(pulls: seq<AnnotatedPull>): nat
  {
    if pulls == [] then 0 else TotalRefs(pulls[..|pulls| - 1]) + |pulls[|pulls| - 1].referencedIssues|
  }

  lemma TotalRefsSnoc(pulls: seq<AnnotatedPull>, i: nat)
    requires i < |pulls|
    ensures TotalRefs(pulls[..i + 1]) == TotalRefs(pulls[..i]) + |pulls[i].referencedIssues|
  {
    assert pulls[..i + 1][..i] == pulls[..i];
  }

  /** The total splits over a concatenation. */
  lemma {:induction false} TotalRefsAppend(a: seq<AnnotatedPull>, b: seq<AnnotatedPull>)
    ensures TotalRefs(a + b) == TotalRefs(a) + TotalRefs(b)
  {
    if b != [] {
      var n := |b| - 1;
      assert (a + b)[..|a + b| - 1] == a + b[..n];
      TotalRefsAppend(a, b[..n]);
    } else {
      assert a + b == a;
    }
  }

  /** numIssuedResolved: the number of issue references over all pull requests. */
  method NumIssuesResolved(pulls: seq<AnnotatedPull>) returns (n: int)
    ensures n == TotalRefs(pulls)
    ensures pulls == [] ==> n == 0
  {
    n := 0;
    for i := 0 to |pulls|
      invariant n == TotalRefs(pulls[..i])
    {
      TotalRefsSnoc(pulls, i);
      n := n + |pulls[i].referencedIssues|;
    }
    assert pulls[..|pulls|] == pulls;
  }

  predicate AllClosed(pulls: seq<AnnotatedPull>)
  {
    forall i :: 0 <= i < |pulls| ==> pulls[i].pull.ClosedAt.Some?
  }

  /** With every pull request closed, the closed total is the whole total. */
  lemma {:induction false} ClosedTotalIsTotal(pulls: seq<AnnotatedPull>)
    requires AllClosed(pulls)
    ensures TotalClosedRefs(pulls) == TotalRefs(pulls)
  {
    if pulls != [] {
      ClosedTotalIsTotal(pulls[..|pulls| - 1]);
    }
  }

  /** getIssuesByDate: the issue references of the pull requests closed at
      each date, keyed by every closure date. */
  method GetIssuesByDate(pulls: seq<AnnotatedPull>) returns (issues: map<int, int>)
    requires AllClosed(pulls)
    ensures issues.Keys == PullClosureDates(pulls)
    ensures forall d :: d in issues ==> issues[d] == RefsClosedAt(pulls, d)
  {
    issues := map[];
    for i := 0 to |pulls|
      invariant issues.Keys == PullClosureDates(pulls[..i])
      invariant forall d :: d in issues ==> issues[d] == RefsClosedAt(pulls[..i], d)
    {
      var pull := pulls[i];
      PullClosureDatesSnoc(pulls, i);
      PullCountsSnoc(pulls, i);
      var d := pull.pull.ClosedAt.value;
      if d !in issues {
        RefsClosedAtUnkeyed(pulls[..i], d);
      }
      var current := if d in issues then issues[d] else 0;
      issues := issues[d := current + |pull.referencedIssues|];
    }
    assert pulls[..|pulls|] == pulls;
  }

  /** The per-date counts add up to numIssuedResolved. */
  lemma ByDateSumIsResolved(pulls: seq<AnnotatedPull>)
    requires AllClosed(pulls)
    ensures SumValues(RefsByDate(pulls)) == TotalRefs(pulls)
  {
    RefsByDateSum(pulls);
    ClosedTotalIsTotal(pulls);
  }

  /** getCredentials over the lines of the credentials file: the values of the
      last "username=" and "password=" lines, "" for a missing one. */
  method GetCredentials(lines: seq<string>) returns (username: string, password: string)
    ensures username == LastValue(lines, "username=")
    ensures password == LastValue(lines, "password=")
  {
    username, password := "", "";
    for i := 0 to |lines|
      invariant username == LastValue(lines[..i], "username=")
      invariant password == LastValue(lines[..i], "password=")
    {
      var line := lines[i];
      LastValueSnoc(lines, i, "username=");
      LastValueSnoc(lines, i, "password=");
      if HasPrefix(line, "username=") {
        username := line[|"username="|..];
      }
      if HasPrefix(line, "password=") {
        password := line[|"password="|..];
      }
    }
    assert lines[..|lines|] == lines;
  }
}
