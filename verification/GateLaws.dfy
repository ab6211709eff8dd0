// The sentence gate told from a message's characters: which terminators end a
// sentence, and so which quotes are whole sentences of it.

module GateLaws {
  import opened SentenceGate

  // ----- The word before a terminator

  predicate IsEdge(ch: char) {
    ch in {'"', '\'', '(', '[', '*', '_', '#', '>', '-'}
  }

  /** w ends just before i; before it stand edge characters and guillemets, as far
      as the row's start or white space, and it does not begin with one. */
  ghost predicate WordAt(c: Chars, row: string, b: nat, j: nat, i: nat) {
    && b <= j <= i <= |row|
    && (b == 0 || c.isSpace(row[b - 1]))
    && (forall k :: b <= k < i ==> !c.isSpace(row[k]))
    && (forall k :: b <= k < j ==> IsEdge(row[k]) || row[k] in {'\U{00AB}', '\U{00BB}'})
    && (j < i ==> !IsEdge(row[j]) && row[j] !in {'\U{00AB}', '\U{00BB}'})
  }

  lemma EdgesAre(ch: char)
    ensures ch in EDGE_CHARS <==> IsEdge(ch)
  {
  }

  lemma {:induction false} TokenStartIs(c: Chars, row: string, b: nat, i: nat)
    requires b <= i <= |row| && (b == 0 || c.isSpace(row[b - 1])) && forall k :: b <= k < i ==> !c.isSpace(row[k])
    ensures TokenStart(c, row, i) == b
    decreases i
  {
    if b < i {
      TokenStartIs(c, row, b, i - 1);
    }
  }

  lemma {:induction false} StripIs(s: string, n: nat)
    requires n <= |s| && forall k :: 0 <= k < n ==> IsEdge(s[k]) || s[k] in {'\U{00AB}', '\U{00BB}'}
    requires n < |s| ==> !IsEdge(s[n]) && s[n] !in {'\U{00AB}', '\U{00BB}'}
    ensures StripLeft(s) == s[n..]
    decreases n
  {
    if s != [] {
      EdgesAre(s[0]);
    }
    if n > 0 {
      StripIs(s[1..], n - 1);
      assert s[1..][n - 1..] == s[n..];
    }
  }

  lemma WordIsToken(c: Chars, row: string, b: nat, j: nat, i: nat)
    requires WordAt(c, row, b, j, i)
    ensures TokenBefore(c, row, i) == row[j..i]
  {
    TokenStartIs(c, row, b, i);
    StripIs(row[b..i], j - b);
  }

  lemma {:induction false} EdgeRun(s: string) returns (n: nat)
    ensures n <= |s| && forall k :: 0 <= k < n ==> IsEdge(s[k]) || s[k] in {'\U{00AB}', '\U{00BB}'}
    ensures n < |s| ==> !IsEdge(s[n]) && s[n] !in {'\U{00AB}', '\U{00BB}'}
  {
    n := 0;
    while n < |s| && (IsEdge(s[n]) || s[n] in {'\U{00AB}', '\U{00BB}'})
      invariant n <= |s| && forall k :: 0 <= k < n ==> IsEdge(s[k]) || s[k] in {'\U{00AB}', '\U{00BB}'}
    {
      n := n + 1;
    }
  }

  /** There is one such word before every place. */
  lemma SomeWord(c: Chars, row: string, i: nat) returns (b: nat, j: nat)
    requires i <= |row|
    ensures WordAt(c, row, b, j, i)
  {
    b := TokenStart(c, row, i);
    var n := EdgeRun(row[b..i]);
    j := b + n;
  }

  // ----- Genuine ends

  /** Words a full stop shortens; a sentence never ends on one. */
  predicate IsAbbreviation(w: string) {
    w in {"Mr", "Mrs", "Ms", "Dr", "Prof", "Jr", "Sr", "No", "v", "vs", "al", "cf"}
  }

  /** Words a number belongs to. */
  predicate TakesNumber(w: string) {
    || w in {"Sec", "Art", "cl", "Cl", "para", "Para", "p", "pp", "s", "Ex", "Fig", "ch", "vol"}
    || w in {"no", "e.g", "i.e", "approx"}
    || w in {"Jan", "Feb", "Mar", "Apr", "Jun", "Jul", "Aug", "Sep", "Sept", "Oct", "Nov", "Dec"}
  }

  ghost predicate OnlyBetween(c: Chars, row: string, lo: nat, hi: nat) {
    hi <= |row| && forall k :: lo <= k < hi ==> c.isSpace(row[k]) || IsEdge(row[k])
  }

  /** p is the first character from lo on that is neither white space nor an edge character. */
  ghost predicate FirstVisible(c: Chars, row: string, lo: nat, p: nat) {
    lo <= p < |row| && OnlyBetween(c, row, lo, p) && !c.isSpace(row[p]) && !IsEdge(row[p])
  }

  /** Nothing visible follows, or first a capital or a digit, and no digit after a word a number belongs to. */
  ghost predicate MayFollow(c: Chars, row: string, lo: nat, w: string) {
    || OnlyBetween(c, row, lo, |row|)
    || exists p: nat ::
         FirstVisible(c, row, lo, p) && (if c.isDigit(row[p]) then !TakesNumber(w) else c.isUpper(row[p]))
  }

  /** A terminator at i, behind the word row[j..i], ends a sentence. */
  ghost predicate Genuine(c: Chars, row: string, i: nat) {
    && i < |row| && row[i] in {'.', '!', '?'}
    && (i + 1 == |row|
        || (c.isSpace(row[i + 1])
            && exists b: nat, j: nat :: WordAt(c, row, b, j, i) && !IsAbbreviation(row[j..i])
                                        && MayFollow(c, row, i + 1, row[j..i])))
  }

  lemma BetweenIs(c: Chars, row: string, lo: nat, hi: nat)
    requires hi <= |row|
    ensures AllBetween(c, row, lo, hi) <==> OnlyBetween(c, row, lo, hi)
  {
    forall ch
      ensures ch in EDGE_CHARS <==> IsEdge(ch)
    {
      EdgesAre(ch);
    }
  }

  lemma VisibleIs(c: Chars, row: string, lo: nat, p: nat)
    requires lo <= p <= |row| && OnlyBetween(c, row, lo, p) && (p < |row| ==> !c.isSpace(row[p]) && !IsEdge(row[p]))
    ensures NextVisible(c, row, lo) == p
    decreases p - lo
  {
    if lo < |row| {
      EdgesAre(row[lo]);
    }
    if lo < p {
      VisibleIs(c, row, lo + 1, p);
    }
  }

  lemma NextIsVisible(c: Chars, row: string, lo: nat)
    requires lo <= |row|
    ensures var p := NextVisible(c, row, lo);
            if p == |row| then OnlyBetween(c, row, lo, |row|) else FirstVisible(c, row, lo, p)
  {
    var p := NextVisible(c, row, lo);
    BetweenIs(c, row, lo, p);
    if p < |row| {
      EdgesAre(row[p]);
    }
  }

  lemma MayFollowIff(c: Chars, row: string, lo: nat, w: string)
    requires lo <= |row|
    ensures var p := NextVisible(c, row, lo);
            MayFollow(c, row, lo, w) <==>
            p == |row| || (if c.isDigit(row[p]) then !TakesNumber(w) else c.isUpper(row[p]))
  {
    NextIsVisible(c, row, lo);
    if OnlyBetween(c, row, lo, |row|) {
      VisibleIs(c, row, lo, |row|);
    }
    forall p: nat | FirstVisible(c, row, lo, p)
      ensures NextVisible(c, row, lo) == p
    {
      VisibleIs(c, row, lo, p);
    }
  }

  lemma ListsAre(w: string)
    ensures w in NON_TERMINAL_ABBREVIATIONS <==> IsAbbreviation(w)
    ensures w in NON_TERMINAL_BEFORE_NUMBER <==> TakesNumber(w)
  {
  }

  /** The ends the gate finds are the genuine ones. */
  lemma EndsIff(c: Chars, row: string, i: nat)
    ensures EndsSentence(c, row, i) <==> Genuine(c, row, i)
  {
    if i + 1 < |row| {
      var b, j := SomeWord(c, row, i);
      forall b': nat, j': nat | WordAt(c, row, b', j', i)
        ensures row[j'..i] == TokenBefore(c, row, i)
      {
        WordIsToken(c, row, b', j', i);
      }
      var w := TokenBefore(c, row, i);
      ListsAre(w);
      MayFollowIff(c, row, i + 1, w);
    }
  }

  /** A full stop behind a listed word, with more of the row to come, ends nothing. */
  lemma AbbreviationEndsNothing(c: Chars, row: string, b: nat, j: nat, i: nat)
    requires WordAt(c, row, b, j, i) && i + 1 < |row|
    requires row[j..i] in {"Mr", "Mrs", "Ms", "Dr", "Prof", "Jr", "Sr", "No", "v", "vs", "al", "cf"}
    ensures !EndsSentence(c, row, i)
  {
    EndsIff(c, row, i);
    OneWord(c, row, b, j, i);
  }

  /** There is only one word before a place. */
  lemma OneWord(c: Chars, row: string, b: nat, j: nat, i: nat)
    requires WordAt(c, row, b, j, i)
    ensures forall b': nat, j': nat :: WordAt(c, row, b', j', i) ==> row[j'..i] == row[j..i]
  {
    WordIsToken(c, row, b, j, i);
    forall b': nat, j': nat | WordAt(c, row, b', j', i)
      ensures row[j'..i] == row[j..i]
    {
      WordIsToken(c, row, b', j', i);
    }
  }

  /** Nor does one behind a word a number belongs to, when a number follows. */
  lemma NumberGoesOn(c: Chars, row: string, b: nat, j: nat, i: nat, p: nat)
    requires WordAt(c, row, b, j, i) && TakesNumber(row[j..i])
    requires FirstVisible(c, row, i + 1, p) && c.isDigit(row[p])
    ensures !EndsSentence(c, row, i)
  {
    EndsIff(c, row, i);
    OneWord(c, row, b, j, i);
    VisibleIs(c, row, i + 1, p);
    MayFollowIff(c, row, i + 1, row[j..i]);
  }

  /** Any other word, a terminator, white space and a capital: a sentence ends. */
  lemma CapitalBegins(c: Chars, row: string, b: nat, j: nat, i: nat, p: nat)
    requires WordAt(c, row, b, j, i) && !IsAbbreviation(row[j..i]) && i < |row| && row[i] in {'.', '!', '?'}
    requires FirstVisible(c, row, i + 1, p) && c.isSpace(row[i + 1]) && c.isUpper(row[p]) && !c.isDigit(row[p])
    ensures EndsSentence(c, row, i)
  {
    EndsIff(c, row, i);
    assert MayFollow(c, row, i + 1, row[j..i]);
  }

  // ----- Whole sentences

  predicate IsIndent(ch: char) {
    ch == ' ' || ch == '\t' || IsEdge(ch)
  }

  /** p is where a sentence starts: the row's start, the first visible character
      behind a genuine end, or a line's first character but for its indent and marks. */
  ghost predicate GenuineStart(c: Chars, row: string, p: nat) {
    || p == 0
    || (exists i: nat :: i < p && Genuine(c, row, i) && FirstVisible(c, row, i + 1, p))
    || (exists i: nat :: LineBegins(row, i, p))
  }

  /** Behind the line break at i the line's first character stands at p. */
  ghost predicate LineBegins(row: string, i: nat, p: nat) {
    && i < p < |row| && row[i] == '\n' && !IsIndent(row[p])
    && forall k :: i < k < p ==> IsIndent(row[k])
  }

  /** The row's end, a genuine end's own place, or the place before a genuine full stop. */
  ghost predicate GenuineStop(c: Chars, row: string, end: nat) {
    || end == |row|
    || (end > 0 && Genuine(c, row, end - 1))
    || (Genuine(c, row, end) && row[end] == '.')
  }

  lemma StartIff(c: Chars, row: string, p: nat)
    ensures StartsSentence(c, row, p) <==> GenuineStart(c, row, p)
  {
    forall i: nat
      ensures EndsSentence(c, row, i) <==> Genuine(c, row, i)
    {
      EndsIff(c, row, i);
    }
    if p < |row| {
      EdgesAre(row[p]);
      forall i: nat | i < p
        ensures AllBetween(c, row, i + 1, p) <==> OnlyBetween(c, row, i + 1, p)
        ensures row[i] == '\n' && AllIndent(row, i + 1, p) && !Indent(row[p]) <==> LineBegins(row, i, p)
      {
        BetweenIs(c, row, i + 1, p);
        LineIs(row, i, p);
      }
    }
  }

  lemma LineIs(row: string, i: nat, p: nat)
    requires i < p < |row|
    ensures row[i] == '\n' && AllIndent(row, i + 1, p) && !Indent(row[p]) <==> LineBegins(row, i, p)
  {
    forall ch
      ensures Indent(ch) <==> IsIndent(ch)
    {
      EdgesAre(ch);
    }
  }

  lemma StopIff(c: Chars, row: string, end: nat)
    ensures EndsWhole(c, row, end) <==> GenuineStop(c, row, end)
  {
    EndsIff(c, row, end);
    if end > 0 {
      EndsIff(c, row, end - 1);
    }
  }

  ghost predicate Stands(c: Chars, row: string, quote: string, p: nat) {
    p + |quote| <= |row| && forall k :: 0 <= k < |quote| ==> c.sameLetter(row[p + k], quote[k])
  }

  /** An occurrence of the quote that is a whole sentence of the row. */
  ghost predicate WholeAt(c: Chars, row: string, quote: string, p: nat) {
    Stands(c, row, quote, p) && GenuineStart(c, row, p) && GenuineStop(c, row, p + |quote|)
  }

  lemma StandsIff(c: Chars, row: string, quote: string, p: nat)
    ensures Stands(c, row, quote, p) <==> Occurs(c, row, quote, p)
  {
  }

  lemma WholeIff(c: Chars, row: string, quote: string, p: nat)
    ensures WholeAt(c, row, quote, p) <==> Occurs(c, row, quote, p) && Aligned(c, row, quote, p)
  {
    StandsIff(c, row, quote, p);
    StartIff(c, row, p);
    StopIff(c, row, p + |quote|);
  }

  ghost predicate SomewhereWhole(c: Chars, row: string, quote: string) {
    exists p: nat :: WholeAt(c, row, quote, p)
  }

  /** What is accepted is somewhere a whole sentence, and where no occurrences
      overlap whatever is one is accepted. */
  lemma AcceptsWhole(c: Chars, row: string, quote: string)
    ensures Accepts(c, row, quote) ==> SomewhereWhole(c, row, quote)
    ensures NoOverlap(c, row, quote) ==> (Accepts(c, row, quote) <==> SomewhereWhole(c, row, quote))
  {
    if Accepts(c, row, quote) {
      AcceptedIsWhole(c, row, quote);
      var p: nat :| Occurs(c, row, quote, p) && Aligned(c, row, quote, p);
      WholeIff(c, row, quote, p);
    }
    if NoOverlap(c, row, quote) && SomewhereWhole(c, row, quote) {
      var p: nat :| WholeAt(c, row, quote, p);
      WholeIff(c, row, quote, p);
      CompleteWithoutOverlap(c, row, quote, p);
    }
  }

  /** A row can be quoted whole, whatever it says. */
  lemma WholeRowIsAccepted(c: Chars, row: string)
    requires forall ch :: c.sameLetter(ch, ch)
    ensures Accepts(c, row, row)
  {
    assert Occurs(c, row, row, 0);
  }

  /** A listed word ends at i, and behind it a full stop, if it is one, and white space. */
  ghost predicate AbbreviationAt(c: Chars, row: string, i: nat) {
    && i + 1 < |row| && c.isSpace(row[i + 1])
    && exists b: nat, j: nat :: WordAt(c, row, b, j, i) && IsAbbreviation(row[j..i])
  }

  /** The quote stops at a listed word, before its full stop or behind it. */
  ghost predicate StopsAtAbbreviation(c: Chars, row: string, end: nat) {
    AbbreviationAt(c, row, end) || (end > 0 && AbbreviationAt(c, row, end - 1))
  }

  lemma AbbreviationIsNoEnd(c: Chars, row: string, i: nat)
    requires AbbreviationAt(c, row, i)
    ensures !Genuine(c, row, i) && i > 0 && !Genuine(c, row, i - 1)
  {
    var b: nat, j: nat :| WordAt(c, row, b, j, i) && IsAbbreviation(row[j..i]);
    OneWord(c, row, b, j, i);
    LettersEnd(row[j..i]);
    assert row[i - 1] == row[j..i][i - j - 1];
  }

  /** Such a place is no stop. */
  lemma AbbreviationIsNoStop(c: Chars, row: string, end: nat)
    requires c.Sane() && StopsAtAbbreviation(c, row, end)
    ensures !GenuineStop(c, row, end)
  {
    if AbbreviationAt(c, row, end) {
      AbbreviationIsNoEnd(c, row, end);
    } else {
      AbbreviationIsNoEnd(c, row, end - 1);
    }
  }

  lemma LettersEnd(w: string)
    requires IsAbbreviation(w)
    ensures w != "" && w[|w| - 1] !in {'.', '!', '?'}
  {
  }

  /** So a quote all whose occurrences stop there is refused. */
  lemma RefusedAtAbbreviation(c: Chars, row: string, quote: string)
    requires c.Sane()
    requires forall p: nat :: Occurs(c, row, quote, p) ==> StopsAtAbbreviation(c, row, p + |quote|)
    ensures !Accepts(c, row, quote)
  {
    AcceptsWhole(c, row, quote);
    if p: nat :| WholeAt(c, row, quote, p) {
      WholeIff(c, row, quote, p);
      AbbreviationIsNoStop(c, row, p + |quote|);
    }
  }
}
