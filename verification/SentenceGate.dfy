// The complete-sentence gate of compaction.py: where a sentence of a message
// starts and ends, and which quotes of it are whole sentences.

module SentenceGate {
  /** The Unicode character tests the gate uses, the decimal digits and their
      values, equality up to case, the line boundaries of str.splitlines, and casefold. */
  datatype Chars = Chars(
    isSpace: char -> bool,
    isUpper: char -> bool,
    isDigit: char -> bool,
    isDecimal: char -> bool,
    digitValue: char -> nat,
    isLineBreak: char -> bool,
    sameLetter: (char, char) -> bool,
    casefold: string -> string)
  {
    /** What every Unicode version says of ASCII. */
    ghost predicate Sane() {
      && (forall ch :: '!' <= ch <= '~' ==> !isSpace(ch) && !isLineBreak(ch))
      && isSpace(' ') && !isLineBreak(' ') && isLineBreak('\n')
      && (forall ch :: '0' <= ch <= '9' ==> isDecimal(ch) && digitValue(ch) == ch as int - '0' as int)
      && !isDecimal(' ')
    }
  }

  const CLAUSE_END := ".!?"
  const EDGE_CHARS := "\"'([*_#>-"
  const NON_TERMINAL_ABBREVIATIONS: set<string> :=
    {"Mr", "Mrs", "Ms", "Dr", "Prof", "Jr", "Sr", "No", "v", "vs", "al", "cf"}
  const NON_TERMINAL_BEFORE_NUMBER: set<string> :=
    {"Sec", "Art", "cl", "Cl", "para", "Para", "p", "pp", "s", "Ex", "Fig", "ch", "vol",
     "no", "e.g", "i.e", "approx",
     "Jan", "Feb", "Mar", "Apr", "Jun", "Jul", "Aug", "Sep", "Sept", "Oct", "Nov", "Dec"}

  /** May stand between a sentence's terminator and the next sentence. */
  predicate Between(c: Chars, ch: char) {
    c.isSpace(ch) || ch in EDGE_CHARS
  }

  /** May stand between a line break and the line's first word. */
  predicate Indent(ch: char) {
    ch == ' ' || ch == '\t' || ch in EDGE_CHARS
  }

  predicate AllBetween(c: Chars, row: string, lo: nat, hi: nat)
    requires hi <= |row|
  {
    forall k :: lo <= k < hi ==> Between(c, row[k])
  }

  predicate AllIndent(row: string, lo: nat, hi: nat)
    requires hi <= |row|
  {
    forall k :: lo <= k < hi ==> Indent(row[k])
  }

  // ----- The word before a terminator

  function StripLeft(s: string): string {
    if s != [] && (s[0] in EDGE_CHARS || s[0] == '\U{00AB}' || s[0] == '\U{00BB}') then StripLeft(s[1..]) else s
  }

  /** Start of the run of non-space characters that ends at i. */
  function TokenStart(c: Chars, row: string, i: nat): (j: nat)
    requires i <= |row|
    ensures j <= i && (forall k :: j <= k < i ==> !c.isSpace(row[k])) && (j > 0 ==> c.isSpace(row[j - 1]))
  {
    if i > 0 && !c.isSpace(row[i - 1]) then TokenStart(c, row, i - 1) else i
  }

  function TokenBefore(c: Chars, row: string, i: nat): string
    requires i <= |row|
  {
    StripLeft(row[TokenStart(c, row, i)..i])
  }

  method FindTokenBefore(c: Chars, row: string, i: nat) returns (token: string)
    requires i <= |row|
    ensures token == TokenBefore(c, row, i)
  {
    var j: nat := i;
    while j > 0 && !c.isSpace(row[j - 1])
      invariant j <= i && TokenStart(c, row, j) == TokenStart(c, row, i)
    {
      j := j - 1;
    }
    token := StripLeft(row[j..i]);
  }

  // ----- Sentence ends

  /** First index from j on that is neither white space nor an edge character. */
  function NextVisible(c: Chars, row: string, j: nat): (k: nat)
    requires j <= |row|
    ensures j <= k <= |row| && AllBetween(c, row, j, k) && (k < |row| ==> !Between(c, row[k]))
    decreases |row| - j
  {
    if j < |row| && Between(c, row[j]) then NextVisible(c, row, j + 1) else j
  }

  /** A terminator that genuinely ends a sentence: it ends the message, or white
      space follows and then a capital or a digit, and the word before it is no
      abbreviation that only introduces what follows. */
  predicate EndsSentence(c: Chars, row: string, i: nat) {
    && i < |row| && row[i] in CLAUSE_END
    && (i + 1 == |row| ||
        (c.isSpace(row[i + 1]) &&
         var j := NextVisible(c, row, i + 1);
         var token := TokenBefore(c, row, i);
         && (j < |row| ==> c.isUpper(row[j]) || c.isDigit(row[j]))
         && token !in NON_TERMINAL_ABBREVIATIONS
         && !(j < |row| && c.isDigit(row[j]) && token in NON_TERMINAL_BEFORE_NUMBER)))
  }

  method SkipBetween(c: Chars, row: string, from: nat) returns (j: nat)
    requires from <= |row|
    ensures j == NextVisible(c, row, from)
  {
    j := from;
    while j < |row| && Between(c, row[j])
      invariant from <= j <= |row| && NextVisible(c, row, j) == NextVisible(c, row, from)
    {
      j := j + 1;
    }
  }

  method SentenceEndIndices(c: Chars, row: string) returns (ends: set<nat>)
    ensures forall i: nat :: i in ends <==> EndsSentence(c, row, i)
  {
    ends := {};
    for i := 0 to |row|
      invariant forall k: nat :: k in ends <==> k < i && EndsSentence(c, row, k)
    {
      if row[i] !in CLAUSE_END {
        continue;
      }
      if i + 1 == |row| {
        ends := ends + {i};
        continue;
      }
      if !c.isSpace(row[i + 1]) {
        continue;
      }
      var j := SkipBetween(c, row, i + 1);
      if j < |row| && !(c.isUpper(row[j]) || c.isDigit(row[j])) {
        continue;
      }
      var token := FindTokenBefore(c, row, i);
      if token in NON_TERMINAL_ABBREVIATIONS {
        continue;
      }
      if j < |row| && c.isDigit(row[j]) && token in NON_TERMINAL_BEFORE_NUMBER {
        continue;
      }
      ends := ends + {i};
    }
  }

  // ----- Sentence starts

  /** p is the first visible character after a genuine sentence end. */
  predicate AfterSentence(c: Chars, row: string, p: nat) {
    && p < |row| && !Between(c, row[p])
    && exists i: nat :: i < p && EndsSentence(c, row, i) && AllBetween(c, row, i + 1, p)
  }

  /** p is the first character of a line, its indent and markers skipped. */
  predicate LineStart(row: string, p: nat) {
    && p < |row| && !Indent(row[p])
    && exists i: nat :: i < p && row[i] == '\n' && AllIndent(row, i + 1, p)
  }

  predicate StartsSentence(c: Chars, row: string, p: nat) {
    p == 0 || AfterSentence(c, row, p) || LineStart(row, p)
  }

  function IndentEnd(row: string, j: nat): (k: nat)
    requires j <= |row|
    ensures j <= k <= |row| && AllIndent(row, j, k) && (k < |row| ==> !Indent(row[k]))
    decreases |row| - j
  {
    if j < |row| && Indent(row[j]) then IndentEnd(row, j + 1) else j
  }

  method SkipIndent(row: string, from: nat) returns (j: nat)
    requires from <= |row|
    ensures j == IndentEnd(row, from)
  {
    j := from;
    while j < |row| && Indent(row[j])
      invariant from <= j <= |row| && IndentEnd(row, j) == IndentEnd(row, from)
    {
      j := j + 1;
    }
  }

  method SentenceStarts(c: Chars, row: string, ends: set<nat>) returns (starts: set<nat>)
    requires forall i: nat :: i in ends <==> EndsSentence(c, row, i)
    ensures forall p: nat :: p in starts <==> StartsSentence(c, row, p)
  {
    starts := {0};
    for i := 0 to |row|
      invariant forall p: nat :: p in starts <==> p == 0 || StartedBy(c, row, i, p)
    {
      if i in ends {
        var j := SkipBetween(c, row, i + 1);
        if j < |row| {
          starts := starts + {j};
        }
      }
    }
    ghost var sentences := starts;
    for i := 0 to |row|
      invariant forall p: nat :: p in starts <==> p in sentences || LineStartedBy(row, i, p)
    {
      if row[i] == '\n' {
        var j := SkipIndent(row, i + 1);
        if j < |row| {
          starts := starts + {j};
        }
      }
    }
    forall p: nat
      ensures p in starts <==> StartsSentence(c, row, p)
    {
      StartedByAll(c, row, p);
      LineStartedByAll(row, p);
    }
  }

  predicate StartedBy(c: Chars, row: string, n: nat, p: nat)
    requires n <= |row|
  {
    p < |row| && exists i: nat :: i < n && EndsSentence(c, row, i) && NextVisible(c, row, i + 1) == p
  }

  predicate LineStartedBy(row: string, n: nat, p: nat)
    requires n <= |row|
  {
    p < |row| && exists i: nat :: i < n && row[i] == '\n' && IndentEnd(row, i + 1) == p
  }

  lemma {:induction false} NextVisibleIs(c: Chars, row: string, j: nat, p: nat)
    requires j <= p < |row| && AllBetween(c, row, j, p) && !Between(c, row[p])
    ensures NextVisible(c, row, j) == p
    decreases p - j
  {
    if j < p {
      NextVisibleIs(c, row, j + 1, p);
    }
  }

  lemma {:induction false} IndentEndIs(row: string, j: nat, p: nat)
    requires j <= p < |row| && AllIndent(row, j, p) && !Indent(row[p])
    ensures IndentEnd(row, j) == p
    decreases p - j
  {
    if j < p {
      IndentEndIs(row, j + 1, p);
    }
  }

  lemma StartedByAll(c: Chars, row: string, p: nat)
    ensures StartedBy(c, row, |row|, p) <==> AfterSentence(c, row, p)
  {
    if AfterSentence(c, row, p) {
      var i: nat :| i < p && EndsSentence(c, row, i) && AllBetween(c, row, i + 1, p);
      NextVisibleIs(c, row, i + 1, p);
    }
  }

  lemma LineStartedByAll(row: string, p: nat)
    ensures LineStartedBy(row, |row|, p) <==> LineStart(row, p)
  {
    if LineStart(row, p) {
      var i: nat :| i < p && row[i] == '\n' && AllIndent(row, i + 1, p);
      IndentEndIs(row, i + 1, p);
    }
  }

  // ----- Whole-sentence quotes

  /** quote stands at p, letters compared without case. */
  predicate Occurs(c: Chars, row: string, quote: string, p: nat) {
    p + |quote| <= |row| && forall k :: 0 <= k < |quote| ==> c.sameLetter(row[p + k], quote[k])
  }

  /** Ends at the message's end, on a genuine terminator, or just before a genuine full stop. */
  predicate EndsWhole(c: Chars, row: string, end: nat) {
    || end == |row|
    || (EndsSentence(c, row, end) && row[end] == '.')
    || (end > 0 && EndsSentence(c, row, end - 1))
  }

  predicate Aligned(c: Chars, row: string, quote: string, p: nat) {
    StartsSentence(c, row, p) && EndsWhole(c, row, p + |quote|)
  }

  /** Where re.finditer continues after a match: matches never overlap. */
  function Advance(quote: string): nat {
    if |quote| == 0 then 1 else |quote|
  }

  /** The occurrences re.finditer tries, from `from` on. */
  function Tried(c: Chars, row: string, quote: string, from: nat): seq<nat>
    decreases |row| + 1 - from
  {
    if from + |quote| > |row| then []
    else if Occurs(c, row, quote, from) then [from] + Tried(c, row, quote, from + Advance(quote))
    else Tried(c, row, quote, from + 1)
  }

  /** One occurrence tried from `from` on is aligned. */
  predicate AcceptsFrom(c: Chars, row: string, quote: string, from: nat)
    decreases |row| + 1 - from
  {
    if from + |quote| > |row| then false
    else if Occurs(c, row, quote, from)
        then Aligned(c, row, quote, from) || AcceptsFrom(c, row, quote, from + Advance(quote))
    else AcceptsFrom(c, row, quote, from + 1)
  }

  predicate Accepts(c: Chars, row: string, quote: string) {
    AcceptsFrom(c, row, quote, 0)
  }

  lemma {:induction false} AcceptsTried(c: Chars, row: string, quote: string, from: nat)
    ensures AcceptsFrom(c, row, quote, from)
            <==> exists p :: p in Tried(c, row, quote, from) && Aligned(c, row, quote, p)
    decreases |row| + 1 - from
  {
    if from + |quote| <= |row| {
      var here := Occurs(c, row, quote, from);
      var next := if here then from + Advance(quote) else from + 1;
      AcceptsTried(c, row, quote, next);
      assert Tried(c, row, quote, from) == (if here then [from] else []) + Tried(c, row, quote, next);
      assert here ==> from in Tried(c, row, quote, from);
    }
  }

  /** The sets the gate computes once per message. */
  ghost predicate Boundaries(c: Chars, row: string, ends: set<nat>, starts: set<nat>) {
    && (forall i: nat :: i in ends <==> EndsSentence(c, row, i))
    && (forall p: nat :: p in starts <==> StartsSentence(c, row, p))
  }

  predicate AlignedBy(row: string, ends: set<nat>, starts: set<nat>, p: nat, end: nat)
    requires end <= |row|
  {
    && p in starts
    && (end == |row| || (end in ends && end < |row| && row[end] == '.') || (end > 0 && end - 1 in ends))
  }

  lemma AlignedByBoundaries(c: Chars, row: string, quote: string, ends: set<nat>, starts: set<nat>, p: nat)
    requires Boundaries(c, row, ends, starts) && p + |quote| <= |row|
    ensures AlignedBy(row, ends, starts, p, p + |quote|) <==> Aligned(c, row, quote, p)
  {
  }

  method TryEach(c: Chars, row: string, quote: string, ends: set<nat>, starts: set<nat>) returns (whole: bool)
    requires Boundaries(c, row, ends, starts)
    ensures whole <==> Accepts(c, row, quote)
  {
    var from: nat := 0;
    while from + |quote| <= |row|
      invariant AcceptsFrom(c, row, quote, from) <==> Accepts(c, row, quote)
      decreases |row| + 1 - from
    {
      if Occurs(c, row, quote, from) {
        AlignedByBoundaries(c, row, quote, ends, starts, from);
        if AlignedBy(row, ends, starts, from, from + |quote|) {
          return true;
        }
        from := from + Advance(quote);
      } else {
        from := from + 1;
      }
    }
    whole := false;
  }

  method QuotesAWholeSentence(c: Chars, row: string, quote: string) returns (whole: bool)
    ensures whole <==> Accepts(c, row, quote)
  {
    var ends := SentenceEndIndices(c, row);
    var starts := SentenceStarts(c, row, ends);
    whole := TryEach(c, row, quote, ends, starts);
  }

  lemma {:induction false} TriedOccur(c: Chars, row: string, quote: string, from: nat)
    ensures forall p :: p in Tried(c, row, quote, from) ==> from <= p && Occurs(c, row, quote, p)
    decreases |row| + 1 - from
  {
    if from + |quote| <= |row| {
      TriedOccur(c, row, quote, if Occurs(c, row, quote, from) then from + Advance(quote) else from + 1);
    }
  }

  /** Acceptance is sound: the quote stands in the message between a sentence or
      line start and the message's end or a genuine terminator, short of at most
      a full stop. */
  lemma AcceptedIsWhole(c: Chars, row: string, quote: string)
    requires Accepts(c, row, quote)
    ensures exists p: nat :: Occurs(c, row, quote, p) && Aligned(c, row, quote, p)
  {
    TriedOccur(c, row, quote, 0);
    AcceptsTried(c, row, quote, 0);
  }

  /** A message of one line with no genuine end before its last character can
      only be quoted whole, but for a final full stop. */
  lemma OneSentenceOnlyWhole(c: Chars, row: string, quote: string)
    requires Accepts(c, row, quote)
    requires '\n' !in row && forall i :: 0 <= i < |row| - 1 ==> !EndsSentence(c, row, i)
    ensures Occurs(c, row, quote, 0)
    ensures |quote| == |row| || (|quote| == |row| - 1 && row[|row| - 1] == '.')
  {
    AcceptedIsWhole(c, row, quote);
    var p: nat :| Occurs(c, row, quote, p) && Aligned(c, row, quote, p);
    assert p == 0;
  }

  predicate Covered(tried: seq<nat>, n: nat, p: nat) {
    exists i :: 0 <= i < |tried| && tried[i] < p < tried[i] + n
  }

  /** Not every occurrence is tried: one is, exactly when it does not start
      strictly inside an earlier one that was. */
  lemma {:induction false} TriedUnlessCovered(c: Chars, row: string, quote: string, from: nat, p: nat)
    requires from <= p && Occurs(c, row, quote, p)
    ensures p in Tried(c, row, quote, from) <==>
            !Covered(Tried(c, row, quote, from), |quote|, p)
    decreases |row| + 1 - from
  {
    var here := Occurs(c, row, quote, from);
    var next := if here then from + Advance(quote) else from + 1;
    var all := Tried(c, row, quote, from);
    var rest := Tried(c, row, quote, next);
    TriedOccur(c, row, quote, next);
    assert all == (if here then [from] else []) + rest;
    if p >= next {
      TriedUnlessCovered(c, row, quote, next, p);
      if here {
        CoveredByRest(from, rest, |quote|, p);
      }
    } else if p > from {
      assert all[0] < p < all[0] + |quote|;
      assert p !in rest;
    } else {
      TriedOccur(c, row, quote, from);
      assert all[0] == p && forall i :: 0 <= i < |all| ==> all[i] in all;
    }
  }

  lemma CoveredByRest(from: nat, rest: seq<nat>, n: nat, p: nat)
    requires p >= from + n
    ensures Covered([from] + rest, n, p) <==> Covered(rest, n, p)
  {
    var all := [from] + rest;
    if Covered(rest, n, p) {
      var i :| 0 <= i < |rest| && rest[i] < p < rest[i] + n;
      assert all[i + 1] == rest[i];
    }
  }

  ghost predicate NoOverlap(c: Chars, row: string, quote: string) {
    forall p: nat, q: nat :: Occurs(c, row, quote, p) && Occurs(c, row, quote, q) ==> !(q < p < q + |quote|)
  }

  /** Where no two occurrences overlap, acceptance is also complete. */
  lemma CompleteWithoutOverlap(c: Chars, row: string, quote: string, p: nat)
    requires NoOverlap(c, row, quote) && Occurs(c, row, quote, p) && Aligned(c, row, quote, p)
    ensures Accepts(c, row, quote)
  {
    TriedWhenClear(c, row, quote, p);
    AcceptsTried(c, row, quote, 0);
  }

  /** Every occurrence is tried, as the gate is meant to do, exactly when no two of them overlap. */
  lemma AllTriedIff(c: Chars, row: string, quote: string)
    ensures AllTried(c, row, quote) <==> NoOverlap(c, row, quote)
  {
    TriedOccur(c, row, quote, 0);
    var tried := Tried(c, row, quote, 0);
    if NoOverlap(c, row, quote) {
      forall p: nat | Occurs(c, row, quote, p)
        ensures p in tried
      {
        TriedWhenClear(c, row, quote, p);
      }
    }
    if AllTried(c, row, quote) {
      forall p: nat, q: nat | Occurs(c, row, quote, p) && Occurs(c, row, quote, q)
        ensures !(q < p < q + |quote|)
      {
        TriedUnlessCovered(c, row, quote, 0, p);
        var i :| 0 <= i < |tried| && tried[i] == q;
      }
    }
  }

  ghost predicate AllTried(c: Chars, row: string, quote: string) {
    forall p: nat :: Occurs(c, row, quote, p) ==> p in Tried(c, row, quote, 0)
  }

  lemma TriedWhenClear(c: Chars, row: string, quote: string, p: nat)
    requires NoOverlap(c, row, quote) && Occurs(c, row, quote, p)
    ensures p in Tried(c, row, quote, 0)
  {
    TriedOccur(c, row, quote, 0);
    TriedUnlessCovered(c, row, quote, 0, p);
    var tried := Tried(c, row, quote, 0);
    forall i | 0 <= i < |tried|
      ensures !(tried[i] < p < tried[i] + |quote|)
    {
      assert tried[i] in tried && Occurs(c, row, quote, tried[i]);
    }
  }

  // ----- A sentence the gate does not find

  const ASCII := Chars(
    ch => ch == ' ' || ch == '\t' || ch == '\n' || ch == '\r',
    ch => 'A' <= ch <= 'Z', ch => '0' <= ch <= '9', ch => '0' <= ch <= '9',
    ch => if '0' <= ch <= '9' then ch as int - '0' as int else 0,
    ch => ch == '\n' || ch == '\r', (a, b) => a == b, s => s)

  /** "A. A" ends the message "xA. A. A" and starts a sentence of it, but an
      earlier, unaligned match overlaps it, so it is not tried. */
  lemma OverlapIsMissed(row: string, quote: string)
    requires row == "xA. A. A" && quote == "A. A"
    ensures Occurs(ASCII, row, quote, 4) && Aligned(ASCII, row, quote, 4)
    ensures !Accepts(ASCII, row, quote)
  {
    MissedIsAligned();
    OnlyFirstIsTried(row, quote);
    assert !EndsSentence(ASCII, row, 0);
    assert !StartsSentence(ASCII, row, 1);
    assert !AcceptsFrom(ASCII, row, quote, 1);
  }

  lemma OnlyFirstIsTried(row: string, quote: string)
    requires row == "xA. A. A" && quote == "A. A"
    ensures Occurs(ASCII, row, quote, 1) && !Occurs(ASCII, row, quote, 0)
    ensures Tried(ASCII, row, quote, 0) == Tried(ASCII, row, quote, 1) == [1]
  {
    assert Tried(ASCII, row, quote, 5) == [];
    assert !ASCII.sameLetter(row[0 + 0], quote[0]);
    assert Occurs(ASCII, row, quote, 1) && !Occurs(ASCII, row, quote, 0);
  }

  lemma MissedIsAligned()
    ensures Occurs(ASCII, "xA. A. A", "A. A", 4) && Aligned(ASCII, "xA. A. A", "A. A", 4)
  {
    var row := "xA. A. A";
    var c := ASCII;
    assert NextVisible(c, row, 4) == 4;
    assert NextVisible(c, row, 3) == 4;
    assert TokenStart(c, row, 0) == 0 && TokenStart(c, row, 1) == 0 && TokenStart(c, row, 2) == 0;
    assert row[0..2] == "xA" && TokenBefore(c, row, 2) == "xA";
    assert EndsSentence(c, row, 2);
    assert AfterSentence(c, row, 4);
  }
}
