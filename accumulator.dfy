/**
 * The accumulation primitive of numOpenIssues.go: add one to, or take one
 * from, every count whose date key lies on or after a given date. The map is
 * updated key by key, in the map's own (unspecified) iteration order.
 */
module Accumulator {
  import opened Helpers

  /** incrementAfterDate: same keys; +1 at every key on or after date. */
  method IncrementAfterDate(counts: map<int, int>, date: int) returns (updated: map<int, int>)
    ensures updated.Keys == counts.Keys
    ensures forall k :: k in counts && date <= k ==> updated[k] == counts[k] + 1
    ensures forall k :: k in counts && k < date ==> updated[k] == counts[k]
  {
    updated := counts;
    var pending := counts.Keys;
    while pending != {}
      invariant pending <= counts.Keys
      invariant updated.Keys == counts.Keys
      invariant forall k :: k in pending ==> updated[k] == counts[k]
      invariant forall k :: k in counts && k !in pending ==>
                  updated[k] == if date <= k then counts[k] + 1 else counts[k]
      decreases pending
    {
      ghost var some := Pick(pending);
      var key :| key in pending;
      if date <= key {
        updated := updated[key := updated[key] + 1];
      }
      pending := pending - {key};
    }
  }

  /** decrementAfterDate: same keys; -1 at every key on or after date. */
  method DecrementAfterDate(counts: map<int, int>, date: int) returns (updated: map<int, int>)
    ensures updated.Keys == counts.Keys
    ensures forall k :: k in counts && date <= k ==> updated[k] == counts[k] - 1
    ensures forall k :: k in counts && k < date ==> updated[k] == counts[k]
  {
    updated := counts;
    var pending := counts.Keys;
    while pending != {}
      invariant pending <= counts.Keys
      invariant updated.Keys == counts.Keys
      invariant forall k :: k in pending ==> updated[k] == counts[k]
      invariant forall k :: k in counts && k !in pending ==>
                  updated[k] == if date <= k then counts[k] - 1 else counts[k]
      decreases pending
    {
      ghost var some := Pick(pending);
      var key :| key in pending;
      if date <= key {
        updated := updated[key := updated[key] - 1];
      }
      pending := pending - {key};
    }
  }
}
