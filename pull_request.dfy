/**
 * pullRequest.go: a pull request annotated with the issue numbers its body
 * claims to resolve.
 *
 * The pattern "[close | closes | ... | resolved] #[0-9]+" is, as written, a
 * bracketed character class: a match is ONE character drawn from the text
 * between the brackets, then a space, then '#', then the longest run of
 * decimal digits. Matches are found leftmost-first and do not overlap, as
 * Go's FindAllString finds them. The scanner below is that pattern, not a
 * general regular-expression engine.
 */
module PullRequests {
  import opened Records
  import opened Helpers

  /** The distinct characters between the brackets of the pattern
      "close | closes | closed | fix | fixes | fixed | resolve | resolves | resolved". */
  const ClassChars: set<char> := {'c', 'l', 'o', 's', 'e', 'd', 'f', 'i', 'x', 'r', 'v', ' ', '|'}

  /** Go's int on a 64-bit platform. */
  const MaxInt64: int := 0x7FFF_FFFF_FFFF_FFFF

  datatype AnnotatedPull = AnnotatedPull(pull: PullRequest, referencedIssues: seq<int>)

  predicate InClass(c: char)
  {
    c in ClassChars
  }

  predicate IsDigit(c: char)
  {
    '0' <= c <= '9'
  }

  predicate AllDigits(s: string)
  {
    forall i :: 0 <= i < |s| ==> IsDigit(s[i])
  }

  /** The length of the longest run of digits starting at i. */
  function DigitRun(s: string, i: nat): (n: nat)
    requires i <= |s|
    ensures i + n <= |s|
    ensures AllDigits(s[i..i + n])
    ensures i + n == |s| || !IsDigit(s[i + n])
    decreases |s| - i
  {
    if i < |s| && IsDigit(s[i]) then
      var n := DigitRun(s, i + 1);
      assert s[i..i + 1 + n] == [s[i]] + s[i + 1..i + 1 + n];
      1 + n
    else 0
  }

  /** A match of the pattern starts at i. */
  predicate MatchAt(s: string, i: nat)
  {
    i + 3 < |s| && InClass(s[i]) && s[i + 1] == ' ' && s[i + 2] == '#' && IsDigit(s[i + 3])
  }

  /** Where the (greedy) match starting at i ends. */
  function MatchEnd(s: string, i: nat): (e: nat)
    requires MatchAt(s, i)
    ensures i + 4 <= e <= |s|
  {
    i + 3 + DigitRun(s, i + 3)
  }

  /** A half-open range [start, end) of the body. */
  datatype Span = Span(start: nat, end: nat)

  /** No match starts in [lo, hi). */
  predicate NoMatchIn(s: string, lo: int, hi: int)
  {
    forall i: nat :: lo <= i < hi ==> !MatchAt(s, i)
  }

  /** A span list whose every span is a greedy match starting at or after from,
      the spans in order and disjoint. */
  predicate OrderedMatches(s: string, from: nat, r: seq<Span>)
  {
    && (forall k :: 0 <= k < |r| ==>
          from <= r[k].start && MatchAt(s, r[k].start) && r[k].end == MatchEnd(s, r[k].start))
    && (forall k :: 0 <= k < |r| - 1 ==> r[k].end <= r[k + 1].start)
  }

  /** The successive leftmost non-overlapping matches at or after from. */
  function Spans(s: string, from: nat): (r: seq<Span>)
    requires from <= |s|
    ensures OrderedMatches(s, from, r)
    decreases |s| - from
  {
    if from == |s| then []
    else if MatchAt(s, from) then
      var first := Span(from, MatchEnd(s, from));
      var rest := Spans(s, first.end);
      var r := [first] + rest;
      assert forall k :: 1 <= k < |r| ==> r[k] == rest[k - 1];
      r
    else
      Spans(s, from + 1)
  }

  /** Leftmost-first, before the first span: no match starts there. */
  lemma {:induction false} SpansLeftmostHead(s: string, from: nat)
    requires from <= |s|
    ensures var r := Spans(s, from); NoMatchIn(s, from, if r == [] then |s| else r[0].start)
    decreases |s| - from
  {
    if from < |s| && !MatchAt(s, from) {
      SpansLeftmostHead(s, from + 1);
    }
  }

  /** Leftmost-first, after each span: no match starts before the next span
      (or the end of the body). */
  lemma SpansLeftmostGaps(s: string, from: nat, k: nat)
    requires from <= |s|
    requires k < |Spans(s, from)|
    ensures var r := Spans(s, from);
            NoMatchIn(s, r[k].end, if k + 1 < |r| then r[k + 1].start else |s|)
  {
    var r := Spans(s, from);
    SpansSuffix(s, from, k);
    SpansLeftmostHead(s, r[k].end);
  }

  /** Scanning resumes after each span: the spans from its end are the spans
      that follow it. */
  lemma {:induction false} SpansSuffix(s: string, from: nat, k: nat)
    requires from <= |s|
    requires k < |Spans(s, from)|
    ensures Spans(s, Spans(s, from)[k].end) == Spans(s, from)[k + 1..]
    decreases |s| - from
  {
    if MatchAt(s, from) {
      var e := MatchEnd(s, from);
      SpansCons(s, from);
      if k > 0 {
        SpansSuffix(s, e, k - 1);
      }
    } else {
      SpansSuffix(s, from + 1, k);
    }
  }

  /** A match at from is the first span, followed by the spans after it. */
  lemma SpansCons(s: string, from: nat)
    requires from <= |s| && MatchAt(s, from)
    ensures Spans(s, from) == [Span(from, MatchEnd(s, from))] + Spans(s, MatchEnd(s, from))
  {
  }

  /** FindAllString on the pattern: the matched texts, left to right. */
  function Matches(body: string): (ms: seq<string>)
    ensures |ms| == |Spans(body, 0)|
    ensures forall k :: 0 <= k < |ms| ==>
              |ms[k]| >= 4 && InClass(ms[k][0]) && ms[k][1] == ' ' && ms[k][2] == '#' && AllDigits(ms[k][3..])
  {
    var spans := Spans(body, 0);
    seq(|spans|, k requires 0 <= k < |spans| => body[spans[k].start..spans[k].end])
  }

  /** The value of a run of decimal digits. */
  function DecimalValue(digits: string): nat
    requires AllDigits(digits)
  {
    if digits == [] then 0
    else DecimalValue(digits[..|digits| - 1]) * 10 + (digits[|digits| - 1] - '0') as int
  }

  /** What strconv.Atoi yields for a digit string on a 64-bit platform. */
  datatype Parsed = Parsed(value: int, rangeError: bool)

  /** strconv.Atoi on a non-empty run of digits: a value above the int range is
      reported as a range error and comes back as the largest int. */
  function Atoi(digits: string): Parsed
    requires AllDigits(digits)
  {
    var n := DecimalValue(digits);
    if n <= MaxInt64 then Parsed(n, false) else Parsed(MaxInt64, true)
  }

  /** The issue number one match contributes: the digits after its '#'. */
  function IssueNumber(m: string): int
    requires |m| >= 3 && AllDigits(m[3..])
  {
    Atoi(m[3..]).value
  }

  /** One entry per match, in order, duplicates kept. */
  function ReferencedIssues(body: string): (refs: seq<int>)
    ensures |refs| == |Matches(body)|
  {
    var ms := Matches(body);
    seq(|ms|, k requires 0 <= k < |ms| => IssueNumber(ms[k]))
  }

  /** The annotated form of a pull request. */
  function Annotate(base: PullRequest): AnnotatedPull
  {
    AnnotatedPull(base, ReferencedIssues(base.Body))
  }

  /**
   * newPull: keeps the base record and appends one issue number per match, in
   * match order. A digit run too large for an int is reported (the report is
   * not modelled) and its clamped value is still appended.
   */
  method NewPull(base: PullRequest) returns (pull: AnnotatedPull)
    ensures pull.pull == base
    ensures |pull.referencedIssues| == |Matches(base.Body)|
    ensures forall k :: 0 <= k < |pull.referencedIssues| ==>
              var digits := Matches(base.Body)[k][3..];
              pull.referencedIssues[k] == if DecimalValue(digits) <= MaxInt64 then DecimalValue(digits) else MaxInt64
    ensures pull == Annotate(base)
  {
    pull := AnnotatedPull(base, []);
    var matches := Matches(base.Body);
    for m := 0 to |matches|
      invariant pull.pull == base
      invariant |pull.referencedIssues| == m
      invariant forall k :: 0 <= k < m ==> pull.referencedIssues[k] == IssueNumber(matches[k])
    {
      var st := matches[m];
      var index := IndexOf(st, '#');
      assert st[2] == '#' && st[0] != '#' && st[1] != '#';
      assert index == 2 by {
        assert st[..2] == [st[0], st[1]];
      }
      var issueString := st[index + 1..];
      var parsed := Atoi(issueString);
      pull := pull.(referencedIssues := pull.referencedIssues + [parsed.value]);
    }
  }

  /** Scanning past a stretch where no match starts changes nothing. */
  lemma {:induction false} SpansSkip(s: string, from: nat, i: nat)
    requires from <= i <= |s| && NoMatchIn(s, from, i)
    ensures Spans(s, from) == Spans(s, i)
    decreases i - from
  {
    if from < i {
      assert !MatchAt(s, from);
      SpansSkip(s, from + 1, i);
    }
  }

  /** A body with no space, '#' and digit in a row references nothing. */
  lemma NoHashDigitNoReferences(body: string)
    requires forall i :: 0 <= i < |body| - 2 ==> !(body[i] == ' ' && body[i + 1] == '#' && IsDigit(body[i + 2]))
    ensures ReferencedIssues(body) == []
  {
    assert NoMatchIn(body, 0, |body|);
    SpansSkip(body, 0, |body|);
  }

  lemma NoReferenceHere()
    ensures ReferencedIssues("no reference here") == []
  {
    var s := "no reference here";
    assert forall i :: 0 <= i < |s| ==> s[i] != '#';
    NoHashDigitNoReferences(s);
  }

  const TwoKeywords: string := "fixes #12 and resolves #34"

  lemma TwoKeywordsSpans()
    ensures Spans(TwoKeywords, 0) == [Span(4, 9), Span(21, 26)]
  {
    var s := TwoKeywords;
    TwoKeywordsTail();
    assert MatchAt(s, 4);
    assert DigitRun(s, 7) == 2 by {
      assert DigitRun(s, 9) == 0;
      assert DigitRun(s, 8) == 1;
    }
    assert Spans(s, 4) == [Span(4, 9)] + Spans(s, 9);
    assert !MatchAt(s, 0) && !MatchAt(s, 1) && !MatchAt(s, 2) && !MatchAt(s, 3);
    SpansSkip(s, 0, 4);
  }

  /** After "fixes #12" the only match is "s #34". */
  lemma TwoKeywordsTail()
    ensures Spans(TwoKeywords, 9) == [Span(21, 26)]
  {
    var s := TwoKeywords;
    assert |s| == 26;
    assert Spans(s, 26) == [];
    assert MatchAt(s, 21);
    assert DigitRun(s, 24) == 2 by {
      assert DigitRun(s, 26) == 0;
      assert DigitRun(s, 25) == 1;
    }
    assert Spans(s, 21) == [Span(21, 26)];
    assert NoMatchIn(s, 9, 21) by {
      assert !MatchAt(s, 9) && !MatchAt(s, 10) && !MatchAt(s, 11) && !MatchAt(s, 12);
      assert !MatchAt(s, 13) && !MatchAt(s, 14) && !MatchAt(s, 15) && !MatchAt(s, 16);
      assert !MatchAt(s, 17) && !MatchAt(s, 18) && !MatchAt(s, 19) && !MatchAt(s, 20);
    }
    SpansSkip(s, 9, 21);
  }

  /** "fixes #12 and resolves #34" references 12 then 34. */
  lemma TwoKeywordsReferences()
    ensures ReferencedIssues(TwoKeywords) == [12, 34]
  {
    TwoKeywordsSpans();
    var refs := ReferencedIssues(TwoKeywords);
    ReferenceOfSpan(TwoKeywords, 0);
    ReferenceOfSpan(TwoKeywords, 1);
    TwoKeywordsDigits();
    assert |refs| == 2 && refs[0] == 12 && refs[1] == 34;
  }

  /** The references in TwoKeywords read 12 and 34. */
  lemma TwoKeywordsDigits()
    ensures AllDigits(TwoKeywords[7..9]) && DecimalValue(TwoKeywords[7..9]) == 12
    ensures AllDigits(TwoKeywords[24..26]) && DecimalValue(TwoKeywords[24..26]) == 34
  {
    TwoDigitValue(TwoKeywords, 7);
    TwoDigitValue(TwoKeywords, 24);
  }

  const Repeated: string := "fix #12 fix #12"

  lemma RepeatedSpans()
    ensures Spans(Repeated, 0) == [Span(2, 7), Span(10, 15)]
  {
    var s := Repeated;
    assert |s| == 15;
    assert Spans(s, 15) == [];
    assert MatchAt(s, 10);
    assert DigitRun(s, 13) == 2 by {
      assert DigitRun(s, 15) == 0;
      assert DigitRun(s, 14) == 1;
    }
    assert Spans(s, 10) == [Span(10, 15)];
    assert !MatchAt(s, 7) && !MatchAt(s, 8) && !MatchAt(s, 9);
    SpansSkip(s, 7, 10);
    assert MatchAt(s, 2);
    assert DigitRun(s, 5) == 2 by {
      assert DigitRun(s, 7) == 0;
      assert DigitRun(s, 6) == 1;
    }
    assert Spans(s, 2) == [Span(2, 7)] + Spans(s, 7);
    assert !MatchAt(s, 0) && !MatchAt(s, 1);
    SpansSkip(s, 0, 2);
  }

  /** The k-th reference is the value of the digits of the k-th span. */
  lemma ReferenceOfSpan(body: string, k: nat)
    requires k < |Spans(body, 0)|
    ensures var sp := Spans(body, 0)[k];
            sp.start + 3 < sp.end <= |body| && AllDigits(body[sp.start + 3..sp.end]) &&
            ReferencedIssues(body)[k] == Atoi(body[sp.start + 3..sp.end]).value
  {
    var sp := Spans(body, 0)[k];
    var ms := Matches(body);
    assert ms[k] == body[sp.start..sp.end];
    assert ms[k][3..] == body[sp.start + 3..sp.end];
  }

  /** The value of two digits in a row. */
  lemma TwoDigitValue(body: string, i: nat)
    requires i + 2 <= |body| && IsDigit(body[i]) && IsDigit(body[i + 1])
    ensures AllDigits(body[i..i + 2])
    ensures DecimalValue(body[i..i + 2]) == (body[i] - '0') as int * 10 + (body[i + 1] - '0') as int
  {
    var d := body[i..i + 2];
    assert DecimalValue(d) == DecimalValue(d[..1]) * 10 + (body[i + 1] - '0') as int;
    assert DecimalValue(d[..1]) == DecimalValue(d[..1][..0]) * 10 + (body[i] - '0') as int;
    assert d[..1][..0] == [];
  }

  /** A repeated reference is kept twice. */
  lemma RepeatedReferenceKept()
    ensures ReferencedIssues(Repeated) == [12, 12]
  {
    RepeatedSpans();
    var refs := ReferencedIssues(Repeated);
    ReferenceOfSpan(Repeated, 0);
    ReferenceOfSpan(Repeated, 1);
    RepeatedDigits();
    assert |refs| == 2 && refs[0] == 12 && refs[1] == 12;
  }

  /** Both references in Repeated read 12. */
  lemma RepeatedDigits()
    ensures AllDigits(Repeated[5..7]) && DecimalValue(Repeated[5..7]) == 12
    ensures AllDigits(Repeated[13..15]) && DecimalValue(Repeated[13..15]) == 12
  {
    TwoDigitValue(Repeated, 5);
    TwoDigitValue(Repeated, 13);
  }

  /** A word whose last letter is outside the class references nothing. */
  lemma LetterOutsideClass()
    ensures ReferencedIssues("bug #5") == []
  {
    var s := "bug #5";
    assert forall i: nat :: 0 <= i < 3 ==> !InClass(s[i]);
    SpansSkip(s, 0, 6);
  }

  /** Any class character before " #" counts, keyword or not: "see #5" references 5. */
  lemma ClassNotKeyword()
    ensures ReferencedIssues("see #5") == [5]
  {
    var s := "see #5";
    SeeSpans();
    var refs := ReferencedIssues(s);
    ReferenceOfSpan(s, 0);
    assert s[5..6] == [s[5]] == "5";
    assert DecimalValue("5") == 5 by { assert "5"[..0] == ""; }
    assert |refs| == 1 && refs[0] == 5;
  }

  /** "see #5" has exactly one match, "e #5". */
  lemma SeeSpans()
    ensures Spans("see #5", 0) == [Span(2, 6)]
  {
    var s := "see #5";
    assert MatchAt(s, 2);
    assert DigitRun(s, 5) == 1 by {
      assert DigitRun(s, 6) == 0;
    }
    assert Spans(s, 6) == [];
    assert Spans(s, 2) == [Span(2, 6)];
    assert !MatchAt(s, 0) && !MatchAt(s, 1);
    SpansSkip(s, 0, 2);
  }
}
