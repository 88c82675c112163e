/**
 * The helpers the aggregation code calls whose definitions are not part of
 * this model (filterIssues, getFirstDate, getLastDate, indexOf), each given
 * the contract its call sites rely on, plus the summation over a finite set
 * of keys that the counting lemmas use.
 */
module Helpers {
  import opened Wrappers

  /** filterIssues: the elements that satisfy keep, in their input order. */
  function Filter<T(!new)>(s: seq<T>, keep: T -> bool): (r: seq<T>)
    ensures |r| <= |s|
    ensures forall x :: x in r <==> x in s && keep(x)
  {
    if s == [] then []
    else
      var init, last := s[..|s| - 1], s[|s| - 1];
      assert s == init + [last];
      var kept := Filter(init, keep);
      if keep(last) then kept + [last] else kept
  }

  /** Keeping every element is the identity. */
  lemma {:induction false} FilterKeepsAll<T(!new)>(s: seq<T>, keep: T -> bool)
    requires forall x :: x in s ==> keep(x)
    ensures Filter(s, keep) == s
  {
    if s != [] {
      var init := s[..|s| - 1];
      assert forall x :: x in init ==> x in s;
      FilterKeepsAll(init, keep);
      assert s == init + [s[|s| - 1]];
    }
  }

  /** Filtering a concatenation filters each part and keeps their order, so
      order and repetitions of the kept elements are those of the input. */
  lemma {:induction false} FilterAppend<T(!new)>(s: seq<T>, t: seq<T>, keep: T -> bool)
    ensures Filter(s + t, keep) == Filter(s, keep) + Filter(t, keep)
    decreases |t|
  {
    if t == [] {
      assert s + t == s;
    } else {
      var init, last := t[..|t| - 1], t[|t| - 1];
      assert (s + t)[..|s + t| - 1] == s + init;
      assert (s + t)[|s + t| - 1] == last;
      FilterAppend(s, init, keep);
    }
  }

  /** Some element of a non-empty set. */
  ghost function Pick<T>(s: set<T>): (x: T)
    requires s != {}
    ensures x in s
  {
    var x :| x in s; x
  }

  /** The largest element of a non-empty set. */
  ghost function SetMax(s: set<int>): (r: int)
    requires s != {}
    ensures r in s && forall x :: x in s ==> x <= r
    decreases s
  {
    var x := Pick(s);
    if s == {x} then x
    else
      var m := SetMax(s - {x});
      assert forall y :: y in s ==> y == x || y in s - {x};
      if x > m then x else m
  }

  /** The smallest element of a non-empty set. */
  ghost function SetMin(s: set<int>): (r: int)
    requires s != {}
    ensures r in s && forall x :: x in s ==> r <= x
    decreases s
  {
    var x := Pick(s);
    if s == {x} then x
    else
      var m := SetMin(s - {x});
      assert forall y :: y in s ==> y == x || y in s - {x};
      if x < m then x else m
  }

  /** getFirstDate: the earliest key, None for an empty map. */
  method GetFirstDate(m: map<int, int>) returns (first: Option<int>)
    ensures first.None? <==> m.Keys == {}
    ensures first.Some? ==> first.value == SetMin(m.Keys)
  {
    first := None;
    var pending := m.Keys;
    while pending != {}
      invariant pending <= m.Keys
      invariant first.None? <==> pending == m.Keys
      invariant first.Some? ==> first.value in m && forall k :: k in m.Keys - pending ==> first.value <= k
      decreases pending
    {
      ghost var some := Pick(pending);
      var k :| k in pending;
      if first.None? || k < first.value {
        first := Some(k);
      }
      assert forall j :: j in m.Keys - (pending - {k}) ==> j == k || j in m.Keys - pending;
      pending := pending - {k};
    }
    assert m.Keys - pending == m.Keys;
    if first.Some? {
      var least := SetMin(m.Keys);
      assert first.value <= least && least <= first.value;
    }
  }

  /** getLastDate: the latest key, None for an empty map. */
  method GetLastDate(m: map<int, int>) returns (last: Option<int>)
    ensures last.None? <==> m.Keys == {}
    ensures last.Some? ==> last.value == SetMax(m.Keys)
  {
    last := None;
    var pending := m.Keys;
    while pending != {}
      invariant pending <= m.Keys
      invariant last.None? <==> pending == m.Keys
      invariant last.Some? ==> last.value in m && forall k :: k in m.Keys - pending ==> k <= last.value
      decreases pending
    {
      ghost var some := Pick(pending);
      var k :| k in pending;
      if last.None? || k > last.value {
        last := Some(k);
      }
      assert forall j :: j in m.Keys - (pending - {k}) ==> j == k || j in m.Keys - pending;
      pending := pending - {k};
    }
    assert m.Keys - pending == m.Keys;
    if last.Some? {
      var greatest := SetMax(m.Keys);
      assert last.value <= greatest && greatest <= last.value;
    }
  }

  /** indexOf: the first index holding x, or -1 when x does not occur. */
  function IndexOf<T(==)>(s: seq<T>, x: T): (r: int)
    ensures r == -1 <==> x !in s
    ensures r != -1 ==> 0 <= r < |s| && s[r] == x && x !in s[..r]
  {
    if s == [] then -1
    else if s[0] == x then 0
    else
      var j := IndexOf(s[1..], x);
      assert s == [s[0]] + s[1..];
      if j == -1 then -1
      else
        assert s[..j + 1] == [s[0]] + s[1..][..j];
        j + 1
  }

  /** An element bounding all others from below is the minimum. */
  lemma SetMinUnique(s: set<int>, m: int)
    requires m in s && forall x :: x in s ==> m <= x
    ensures SetMin(s) == m
  {
  }

  /** A date-to-count map whose counts never decrease as the date advances. */
  predicate Monotone(m: map<int, int>)
  {
    forall a, b :: a in m && b in m && a <= b ==> m[a] <= m[b]
  }

  /** The sum of f over a finite set of keys. */
  ghost function SumOver<K>(keys: set<K>, f: K -> int): int
    decreases keys
  {
    if keys == {} then 0
    else
      var k :| k in keys;
      f(k) + SumOver(keys - {k}, f)
  }

  /** The sum of the values of a map. */
  ghost function SumValues(m: map<int, int>): int
    decreases |m.Keys|
  {
    if m.Keys == {} then 0
    else
      var k := Pick(m.Keys);
      assert |(m - {k}).Keys| < |m.Keys| by {
        assert (m - {k}).Keys == m.Keys - {k};
      }
      m[k] + SumValues(m - {k})
  }

  /** A sum of map values is the sum of any function agreeing with the map. */
  lemma SumValuesOf(m: map<int, int>, f: int -> int)
    requires forall k :: k in m ==> m[k] == f(k)
    ensures SumValues(m) == SumOver(m.Keys, f)
    decreases |m.Keys|
  {
    if m.Keys != {} {
      var k := Pick(m.Keys);
      assert (m - {k}).Keys == m.Keys - {k};
      SumValuesOf(m - {k}, f);
      SumOverPick(m.Keys, f, k);
    }
  }

  /** Any key may be split off first. */
  lemma SumOverPick<K>(keys: set<K>, f: K -> int, k: K)
    requires k in keys
    ensures SumOver(keys, f) == f(k) + SumOver(keys - {k}, f)
    decreases keys
  {
    var j :| j in keys && SumOver(keys, f) == f(j) + SumOver(keys - {j}, f);
    if j != k {
      SumOverPick(keys - {j}, f, k);
      SumOverPick(keys - {k}, f, j);
      assert keys - {j} - {k} == keys - {k} - {j};
    }
  }

  /** Sums agree when the summands agree on every key. */
  lemma SumOverCongruent<K>(keys: set<K>, f: K -> int, g: K -> int)
    requires forall k :: k in keys ==> f(k) == g(k)
    ensures SumOver(keys, f) == SumOver(keys, g)
    decreases keys
  {
    if keys != {} {
      var k :| k in keys;
      SumOverPick(keys, f, k);
      SumOverPick(keys, g, k);
      SumOverCongruent(keys - {k}, f, g);
    }
  }

  /**
   * Adding one key k to the set and delta to f at k (and nothing elsewhere)
   * adds f(k) + delta when k is new and delta when it is not, provided f is
   * zero off the old keys.
   */
  lemma SumOverBump<K>(keys: set<K>, f: K -> int, g: K -> int, k: K, delta: int)
    requires k !in keys ==> f(k) == 0
    requires g(k) == f(k) + delta
    requires forall j :: j in keys && j != k ==> g(j) == f(j)
    ensures SumOver(keys + {k}, g) == SumOver(keys, f) + delta
  {
    SumOverPick(keys + {k}, g, k);
    SumOverCongruent(keys + {k} - {k}, g, f);
    if k in keys {
      SumOverPick(keys, f, k);
      assert keys + {k} - {k} == keys - {k};
    } else {
      assert keys + {k} - {k} == keys;
    }
  }
}
