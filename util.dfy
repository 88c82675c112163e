/**
 * util.go: ordering the keys of a date map, and reading credentials from the
 * lines of a credentials file.
 */
module Util {
  import opened Wrappers
  import opened Helpers

  /** Strictly increasing: ascending, and no instant twice. */
  predicate StrictlyAscending(s: seq<int>)
  {
    forall i, j :: 0 <= i < j < |s| ==> s[i] < s[j]
  }

  predicate Ascending(s: seq<int>)
  {
    forall i, j :: 0 <= i < j < |s| ==> s[i] <= s[j]
  }

  predicate Distinct(s: seq<int>)
  {
    forall i, j :: 0 <= i < j < |s| ==> s[i] != s[j]
  }

  /** The first n cells of a are in ascending order. */
  predicate AscendingPrefix(a: array<int>, n: int)
    reads a
    requires 0 <= n <= a.Length
  {
    forall p, q :: 0 <= p < q < n ==> a[p] <= a[q]
  }

  /** sort.Slice with the Before ordering, as an insertion sort by swaps. */
  method SortInPlace(a: array<int>)
    modifies a
    ensures Ascending(a[..])
    ensures multiset(a[..]) == multiset(old(a[..]))
  {
    for i := 0 to a.Length
      invariant AscendingPrefix(a, i)
      invariant multiset(a[..]) == multiset(old(a[..]))
    {
      InsertLast(a, i);
    }
  }

  /** One insertion step: cell i sinks into the ascending prefix before it. */
  method InsertLast(a: array<int>, i: int)
    requires 0 <= i < a.Length && AscendingPrefix(a, i)
    modifies a
    ensures AscendingPrefix(a, i + 1)
    ensures multiset(a[..]) == multiset(old(a[..]))
  {
    var j := i;
    while j > 0 && a[j - 1] > a[j]
      invariant 0 <= j <= i
      invariant multiset(a[..]) == multiset(old(a[..]))
      invariant forall p, q :: 0 <= p < q <= i && p != j && q != j ==> a[p] <= a[q]
      invariant forall q :: j < q <= i ==> a[j] < a[q]
      invariant 0 < j < i ==> a[j - 1] <= a[j + 1]
    {
      SwapDown(a, j);
      j := j - 1;
    }
  }

  /** Exchanges cell j with the cell before it. */
  method SwapDown(a: array<int>, j: int)
    requires 0 < j < a.Length
    modifies a
    ensures a[j - 1] == old(a[j]) && a[j] == old(a[j - 1])
    ensures forall k :: 0 <= k < a.Length && k != j - 1 && k != j ==> a[k] == old(a[k])
    ensures multiset(a[..]) == multiset(old(a[..]))
  {
    a[j - 1], a[j] := a[j], a[j - 1];
  }

  /** A distinct sequence holds each value at most once. */
  lemma {:induction false} DistinctCounts(s: seq<int>)
    requires Distinct(s)
    ensures forall x :: multiset(s)[x] <= 1
  {
    if s != [] {
      var init, last := s[..|s| - 1], s[|s| - 1];
      assert s == init + [last];
      DistinctCounts(init);
      assert last !in init;
    }
  }

  /** A value at two positions is counted at least twice. */
  lemma RepeatCounts(s: seq<int>, i: nat, j: nat)
    requires i < j < |s| && s[i] == s[j]
    ensures multiset(s)[s[i]] >= 2
  {
    assert s == s[..j] + [s[j]] + s[j + 1..];
    assert s[i] in s[..j];
  }

  /** Reordering keeps distinctness. */
  lemma PermutationDistinct(s: seq<int>, t: seq<int>)
    requires multiset(s) == multiset(t) && Distinct(s)
    ensures Distinct(t)
  {
    DistinctCounts(s);
    forall i, j | 0 <= i < j < |t| ensures t[i] != t[j] {
      if t[i] == t[j] {
        RepeatCounts(t, i, j);
      }
    }
  }

  /** sortKeys: the keys of m, each exactly once, in strictly increasing order. */
  method SortKeys(m: map<int, int>) returns (keys: seq<int>)
    ensures |keys| == |m|
    ensures forall k :: k in keys <==> k in m
    ensures StrictlyAscending(keys)
  {
    var a := new int[|m|];
    var pending := m.Keys;
    var i := 0;
    while pending != {}
      invariant pending <= m.Keys
      invariant i + |pending| == |m|
      invariant forall k :: k in a[..i] <==> k in m.Keys - pending
      invariant Distinct(a[..i])
      decreases |pending|
    {
      ghost var some := Pick(pending);
      var k :| k in pending;
      a[i] := k;
      assert a[..i + 1] == a[..i] + [k];
      pending := pending - {k};
      i := i + 1;
    }
    assert m.Keys - pending == m.Keys;
    ghost var filled := a[..];
    assert filled == a[..i];
    SortInPlace(a);
    keys := a[..];
    assert Ascending(keys);
    assert forall k :: k in keys <==> k in filled by {
      forall k ensures k in keys <==> k in filled {
        assert k in keys <==> k in multiset(keys);
        assert k in filled <==> k in multiset(filled);
      }
    }
    PermutationDistinct(filled, keys);
  }

  /** Two strictly increasing sequences with the same elements are equal, so
      the keys of a map have exactly one sorted order. */
  lemma {:induction false} AscendingUnique(s: seq<int>, t: seq<int>)
    requires StrictlyAscending(s) && StrictlyAscending(t)
    requires forall x :: x in s <==> x in t
    ensures s == t
  {
    assert s != [] ==> s[0] in t by {
      if s != [] {
        assert s[0] in s;
      }
    }
    assert t != [] ==> t[0] in s by {
      if t != [] {
        assert t[0] in t;
      }
    }
    if s != [] && t != [] {
      assert s[0] == t[0] by {
        assert s[0] in s && t[0] in t;
      }
      forall x ensures x in s[1..] <==> x in t[1..] {
        if x in s[1..] {
          assert x in t;
          assert x != t[0];
        }
        if x in t[1..] {
          assert x in s;
          assert x != s[0];
        }
      }
      AscendingUnique(s[1..], t[1..]);
      assert s == [s[0]] + s[1..];
      assert t == [t[0]] + t[1..];
    }
  }

  /** The authentication a credentials file selects. */
  datatype AuthMethod =
    | TokenAuth(AccessToken: string)
    | BasicAuth(Login: string, Password: string)

  predicate HasPrefix(line: string, prefix: string)
  {
    |prefix| <= |line| && line[..|prefix|] == prefix
  }

  /** The remainder of the first line starting with prefix, if any. */
  function FirstValue(lines: seq<string>, prefix: string): Option<string>
  {
    if lines == [] then None
    else if HasPrefix(lines[0], prefix) then Some(lines[0][|prefix|..])
    else FirstValue(lines[1..], prefix)
  }

  /** The remainder of the last line starting with prefix, or "" when there is none. */
  function LastValue(lines: seq<string>, prefix: string): string
  {
    if lines == [] then ""
    else
      var last := lines[|lines| - 1];
      if HasPrefix(last, prefix) then last[|prefix|..] else LastValue(lines[..|lines| - 1], prefix)
  }

  /** FirstValue picks the earliest line with the prefix. */
  lemma {:induction false} FirstValueIsFirst(lines: seq<string>, prefix: string, i: nat)
    requires i < |lines| && HasPrefix(lines[i], prefix)
    requires forall j :: 0 <= j < i ==> !HasPrefix(lines[j], prefix)
    ensures FirstValue(lines, prefix) == Some(lines[i][|prefix|..])
  {
    if i > 0 {
      FirstValueIsFirst(lines[1..], prefix, i - 1);
    }
  }

  /** Without a line with the prefix there is no first value. */
  lemma {:induction false} FirstValueAbsent(lines: seq<string>, prefix: string)
    requires forall j :: 0 <= j < |lines| ==> !HasPrefix(lines[j], prefix)
    ensures FirstValue(lines, prefix) == None
  {
    if lines != [] {
      FirstValueAbsent(lines[1..], prefix);
    }
  }

  /** LastValue picks the latest line with the prefix. */
  lemma {:induction false} LastValueIsLast(lines: seq<string>, prefix: string, i: nat)
    requires i < |lines| && HasPrefix(lines[i], prefix)
    requires forall j :: i < j < |lines| ==> !HasPrefix(lines[j], prefix)
    ensures LastValue(lines, prefix) == lines[i][|prefix|..]
  {
    if i < |lines| - 1 {
      LastValueIsLast(lines[..|lines| - 1], prefix, i);
    }
  }

  /** Without a line with the prefix the value is the empty string. */
  lemma {:induction false} LastValueAbsent(lines: seq<string>, prefix: string)
    requires forall j :: 0 <= j < |lines| ==> !HasPrefix(lines[j], prefix)
    ensures LastValue(lines, prefix) == ""
  {
    if lines != [] {
      LastValueAbsent(lines[..|lines| - 1], prefix);
    }
  }

  lemma {:induction false} FirstValueAppend(a: seq<string>, b: seq<string>, prefix: string)
    ensures FirstValue(a + b, prefix) == if FirstValue(a, prefix).Some? then FirstValue(a, prefix) else FirstValue(b, prefix)
  {
    if a != [] {
      assert (a + b)[1..] == a[1..] + b;
      FirstValueAppend(a[1..], b, prefix);
    } else {
      assert a + b == b;
    }
  }

  lemma LastValueSnoc(lines: seq<string>, i: nat, prefix: string)
    requires i < |lines|
    ensures LastValue(lines[..i + 1], prefix) ==
            if HasPrefix(lines[i], prefix) then lines[i][|prefix|..] else LastValue(lines[..i], prefix)
  {
    assert lines[..i + 1][..i] == lines[..i];
  }

  /** getAuth over the lines of the credentials file: the first "token=" line
      selects token authentication and ends the scan; otherwise basic
      authentication with the last "username=" and "password=" values. */
  method GetAuth(lines: seq<string>) returns (auth: AuthMethod)
    ensures FirstValue(lines, "token=").Some? ==> auth == TokenAuth(FirstValue(lines, "token=").value)
    ensures FirstValue(lines, "token=").None? ==>
              auth == BasicAuth(LastValue(lines, "username="), LastValue(lines, "password="))
  {
    var username, password := "", "";
    for i := 0 to |lines|
      invariant FirstValue(lines[..i], "token=") == None
      invariant username == LastValue(lines[..i], "username=")
      invariant password == LastValue(lines[..i], "password=")
    {
      var line := lines[i];
      LastValueSnoc(lines, i, "username=");
      LastValueSnoc(lines, i, "password=");
      FirstValueAppend(lines[..i], [line], "token=");
      FirstValueAppend(lines[..i + 1], lines[i + 1..], "token=");
      assert lines[..i] + [line] == lines[..i + 1];
      assert lines[..i + 1] + lines[i + 1..] == lines;
      if HasPrefix(line, "username=") {
        username := line[|"username="|..];
      }
      if HasPrefix(line, "password=") {
        password := line[|"password="|..];
      }
      if HasPrefix(line, "token=") {
        var token := line[|"token="|..];
        return TokenAuth(token);
      }
    }
    assert lines[..|lines|] == lines;
    auth := BasicAuth(username, password);
  }
}
