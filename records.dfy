/**
 * The forge records the aggregation engine consumes. Only the fields the
 * engine reads are kept. Timestamps are instants in Unix seconds.
 */
module Records {
  import opened Wrappers

  /** An issue: a closure time of None means the issue is still open. */
  datatype Issue = Issue(
    Number: int,
    CreatedAt: int,
    ClosedAt: Option<int>,
    Login: string,
    Labels: seq<string>)

  /** A pull request: ClosedAt is None while it is open. */
  datatype PullRequest = PullRequest(
    Number: int,
    Login: string,
    Body: string,
    ClosedAt: Option<int>)
}
