// foldText and occurrences of trackedText.ts: how a text is folded before it is
// searched, and which occurrences of a needle are counted in it.

module FoldedText {
  import opened Utf16
  import opened Collections

  /** A folded text, and for each of its units the place in the source it was folded from. */
  datatype Folded = Folded(text: Text, at: seq<nat>)

  type Span = (nat, nat)

  function Fold(u: Unicode, c: Unit): Unit {
    if IsBreak(c) then SPACE
    else if c == 0x2018 || c == 0x2019 then 39
    else if c == 0x201C || c == 0x201D then 34
    else if IsSpace(c) then SPACE
    else u.lower(c)
  }

  function FoldUnit(u: Unicode, c: Unit, keepBreaks: bool): Unit {
    if keepBreaks && IsBreak(c) then LF else Fold(u, c)
  }

  // ----- foldText

  /** Folding one more unit drops it only when it continues a run of spaces. */
  function Folding(u: Unicode, s: Text, keepBreaks: bool): (f: Folded)
    ensures |f.text| == |f.at|
  {
    if s == [] then Folded([], [])
    else
      var p := Folding(u, s[..|s| - 1], keepBreaks);
      var c := FoldUnit(u, s[|s| - 1], keepBreaks);
      if c == SPACE && p.text != [] && p.text[|p.text| - 1] == SPACE then p
      else Folded(p.text + [c], p.at + [|s| - 1])
  }

  method FoldText(u: Unicode, s: Text, keepBreaks: bool) returns (f: Folded)
    ensures f == Folding(u, s, keepBreaks)
  {
    var chars: Text := [];
    var at: seq<nat> := [];
    for i := 0 to |s|
      invariant Folded(chars, at) == Folding(u, s[..i], keepBreaks)
    {
      assert s[..i + 1][..i] == s[..i];
      var c := FoldUnit(u, s[i], keepBreaks);
      if !(c == SPACE && |chars| > 0 && chars[|chars| - 1] == SPACE) {
        chars := chars + [c];
        at := at + [i];
      }
    }
    assert s[..|s|] == s;
    f := Folded(chars, at);
  }

  /** The source units a folding keeps: all but a space right after a space. */
  predicate Kept(u: Unicode, s: Text, keepBreaks: bool, i: nat)
    requires i < |s|
  {
    FoldUnit(u, s[i], keepBreaks) != SPACE || i == 0 || FoldUnit(u, s[i - 1], keepBreaks) != SPACE
  }

  /** f holds units of s in order, each folded, and no two spaces side by side. */
  ghost predicate FoldOf(u: Unicode, s: Text, keepBreaks: bool, f: Folded) {
    && |f.text| == |f.at|
    && (forall k :: 0 <= k < |f.at| ==> f.at[k] < |s| && f.text[k] == FoldUnit(u, s[f.at[k]], keepBreaks))
    && (forall k, l :: 0 <= k < l < |f.at| ==> f.at[k] < f.at[l])
    && (forall k :: 0 < k < |f.text| ==> !(f.text[k - 1] == SPACE && f.text[k] == SPACE))
  }

  lemma {:induction false} FoldingUnits(u: Unicode, s: Text, keepBreaks: bool)
    ensures FoldOf(u, s, keepBreaks, Folding(u, s, keepBreaks))
  {
    if s != [] {
      FoldingUnits(u, s[..|s| - 1], keepBreaks);
    }
  }

  predicate EndsWithSpace(t: Text) {
    t != [] && t[|t| - 1] == SPACE
  }

  lemma {:induction false} FoldingEnd(u: Unicode, s: Text, keepBreaks: bool)
    requires s != []
    ensures EndsWithSpace(Folding(u, s, keepBreaks).text) <==> FoldUnit(u, s[|s| - 1], keepBreaks) == SPACE
    ensures Folding(u, s, keepBreaks).text != []
  {
  }

  /** Exactly the kept units are in it. */
  lemma {:induction false} FoldingKeeps(u: Unicode, s: Text, keepBreaks: bool, i: nat)
    requires i < |s|
    ensures i in Folding(u, s, keepBreaks).at <==> Kept(u, s, keepBreaks, i)
  {
    var n := |s| - 1;
    FoldingUnits(u, s[..n], keepBreaks);
    if i < n {
      FoldingKeeps(u, s[..n], keepBreaks, i);
    } else if n > 0 {
      FoldingEnd(u, s[..n], keepBreaks);
    }
    assert n !in Folding(u, s[..n], keepBreaks).at;
    assert i < n ==> (Kept(u, s, keepBreaks, i) <==> Kept(u, s[..n], keepBreaks, i));
  }

  // ----- The key a needle is searched by

  function Key(u: Unicode, needle: Text): Text {
    Folding(u, NormalizeForSearch(u, needle), false).text
  }

  /** Visible text at both ends, and no break. */
  predicate VisibleEnds(key: Text) {
    && key != [] && key[0] != SPACE && key[|key| - 1] != SPACE
    && forall k :: 0 <= k < |key| ==> !IsBreak(key[k])
  }

  /** A key never starts or ends with a space, and the unit a kept break folds to is in no key. */
  lemma KeyHasVisibleEnds(u: Unicode, needle: Text)
    requires u.Sane()
    ensures Key(u, needle) == [] || VisibleEnds(Key(u, needle))
  {
    var n := NormalizeForSearch(u, needle);
    if n != [] {
      FoldingUnits(u, n, false);
      FoldingEnd(u, n, false);
      FoldingKeeps(u, n, false, 0);
      var f := Folding(u, n, false);
      var k :| 0 <= k < |f.at| && f.at[k] == 0;
      assert forall c: Unit :: !IsSpace(c) ==> !IsSpace(u.lower(c));
    }
  }

  // ----- occurrences

  predicate MatchAt(text: Text, key: Text, k: nat) {
    k + |key| <= |text| && forall i :: 0 <= i < |key| ==> text[k + i] == key[i]
  }

  /** A word unit stands right before or right after. */
  predicate InsideWord(u: Unicode, text: Text, n: nat, k: nat) {
    (0 < k <= |text| && u.wordUnit(text[k - 1])) || (k + n < |text| && u.wordUnit(text[k + n]))
  }

  /** A match that counts. */
  predicate Hit(u: Unicode, text: Text, key: Text, wholeWord: bool, k: nat) {
    MatchAt(text, key, k) && !(wholeWord && InsideWord(u, text, |key|, k))
  }

  /** The places counted from `from` on, scanning left to right without overlap. */
  function Hits(u: Unicode, text: Text, key: Text, wholeWord: bool, from: nat): seq<nat>
    requires key != []
    decreases |text| - from
  {
    if from + |key| > |text| then []
    else if Hit(u, text, key, wholeWord, from) then [from] + Hits(u, text, key, wholeWord, from + |key|)
    else Hits(u, text, key, wholeWord, from + 1)
  }

  function NextScan(u: Unicode, text: Text, key: Text, wholeWord: bool, from: nat): nat {
    if Hit(u, text, key, wholeWord, from) then from + |key| else from + 1
  }

  ghost predicate Disjoint(u: Unicode, text: Text, key: Text, wholeWord: bool, from: nat, h: seq<nat>) {
    && (forall i :: 0 <= i < |h| ==> from <= h[i] && Hit(u, text, key, wholeWord, h[i]))
    && (forall i, j :: 0 <= i < j < |h| ==> h[i] + |key| <= h[j])
  }

  predicate Covers(h: seq<nat>, n: nat, p: nat) {
    exists i :: 0 <= i < |h| && h[i] <= p < h[i] + n
  }

  /** Every counted place is a hit, and the next starts no earlier than the last one's end. */
  lemma {:induction false} HitsSound(u: Unicode, text: Text, key: Text, wholeWord: bool, from: nat)
    requires key != []
    ensures Disjoint(u, text, key, wholeWord, from, Hits(u, text, key, wholeWord, from))
    decreases |text| - from
  {
    if from + |key| <= |text| {
      HitsSound(u, text, key, wholeWord, NextScan(u, text, key, wholeWord, from));
    }
  }

  /** No hit is passed over: each is counted or starts inside a counted one that began before it. */
  lemma {:induction false} HitsLeftmost(u: Unicode, text: Text, key: Text, wholeWord: bool, from: nat, p: nat)
    requires key != [] && from <= p && Hit(u, text, key, wholeWord, p)
    ensures Covers(Hits(u, text, key, wholeWord, from), |key|, p)
    decreases |text| - from
  {
    var h := Hits(u, text, key, wholeWord, from);
    var next := NextScan(u, text, key, wholeWord, from);
    if p < next {
      assert h[0] <= p < h[0] + |key|;
    } else {
      HitsLeftmost(u, text, key, wholeWord, next, p);
      var t := Hits(u, text, key, wholeWord, next);
      var i :| 0 <= i < |t| && t[i] <= p < t[i] + |key|;
      var i' := if Hit(u, text, key, wholeWord, from) then i + 1 else i;
      assert h[i'] == t[i];
    }
  }

  /** The spans of the hits from `from` on. */
  function Scan(u: Unicode, f: Folded, key: Text, wholeWord: bool, from: nat): seq<Span>
    requires |f.text| == |f.at| && key != []
    decreases |f.text| - from
  {
    if from + |key| > |f.text| then []
    else if Hit(u, f.text, key, wholeWord, from) then
      [(f.at[from], f.at[from + |key| - 1] + 1)] + Scan(u, f, key, wholeWord, from + |key|)
    else Scan(u, f, key, wholeWord, from + 1)
  }

  lemma {:induction false} ScanIsHits(u: Unicode, f: Folded, key: Text, wholeWord: bool, from: nat)
    requires |f.text| == |f.at| && key != []
    ensures |Scan(u, f, key, wholeWord, from)| == |Hits(u, f.text, key, wholeWord, from)|
    ensures forall i :: 0 <= i < |Scan(u, f, key, wholeWord, from)| ==>
              var k := Hits(u, f.text, key, wholeWord, from)[i];
              k + |key| <= |f.text| && Scan(u, f, key, wholeWord, from)[i] == (f.at[k], f.at[k + |key| - 1] + 1)
    decreases |f.text| - from
  {
    if from + |key| <= |f.text| {
      ScanIsHits(u, f, key, wholeWord, NextScan(u, f.text, key, wholeWord, from));
    }
  }

  /** Every span of the scan is a match's. */
  lemma {:induction false} ScanAt(u: Unicode, f: Folded, key: Text, wholeWord: bool, from: nat, i: nat) returns (k: nat)
    requires |f.text| == |f.at| && key != [] && i < |Scan(u, f, key, wholeWord, from)|
    ensures MatchAt(f.text, key, k) && Scan(u, f, key, wholeWord, from)[i] == (f.at[k], f.at[k + |key| - 1] + 1)
    decreases |f.text| - from
  {
    if Hit(u, f.text, key, wholeWord, from) && i == 0 {
      k := from;
    } else if Hit(u, f.text, key, wholeWord, from) {
      k := ScanAt(u, f, key, wholeWord, from + |key|, i - 1);
    } else {
      k := ScanAt(u, f, key, wholeWord, from + 1, i);
    }
  }

  /** Where nothing counts, the scan may jump ahead: what indexOf does. */
  lemma {:induction false} ScanSkip(u: Unicode, f: Folded, key: Text, wholeWord: bool, from: nat, stop: nat)
    requires |f.text| == |f.at| && key != [] && from <= stop
    requires NoMatch(f.text, key, from, stop)
    ensures Scan(u, f, key, wholeWord, from) == Scan(u, f, key, wholeWord, stop)
    decreases stop - from
  {
    if from < stop && from + |key| <= |f.text| {
      assert !MatchAt(f.text, key, from);
      ScanSkip(u, f, key, wholeWord, from + 1, stop);
    }
  }

  /** The counted occurrences of `needle`, as source spans. */
  function Occurrences(u: Unicode, f: Folded, needle: Text, wholeWord: bool): seq<Span>
    requires |f.text| == |f.at|
  {
    var key := Key(u, needle);
    if key == [] then [] else Scan(u, f, key, wholeWord, 0)
  }

  /** No match starts in [from, stop). */
  ghost predicate NoMatch(text: Text, key: Text, from: int, stop: int) {
    forall p: nat :: from <= p < stop ==> !MatchAt(text, key, p)
  }

  method IndexOf(text: Text, key: Text, from: nat) returns (k: int)
    requires key != []
    ensures if k == -1 then NoMatch(text, key, from, |text|)
            else from <= k && MatchAt(text, key, k) && NoMatch(text, key, from, k)
  {
    k := from;
    while k + |key| <= |text|
      invariant from <= k && NoMatch(text, key, from, k)
    {
      if MatchAt(text, key, k) {
        return;
      }
      k := k + 1;
    }
    k := -1;
  }

  method FindOccurrences(u: Unicode, f: Folded, needle: Text, wholeWord: bool) returns (found: seq<Span>)
    requires |f.text| == |f.at|
    ensures found == Occurrences(u, f, needle, wholeWord)
  {
    var norm := NormalizeForSearch(u, needle);
    var folded := FoldText(u, norm, false);
    var key := folded.text;
    if key == [] {
      return [];
    }
    found := FindKey(u, f, key, wholeWord);
  }

  /** A match is either counted, and the scan goes on behind it, or not, and it goes on at the next place. */
  lemma ScanHere(u: Unicode, f: Folded, key: Text, wholeWord: bool, k: nat, found: seq<Span>)
    requires |f.text| == |f.at| && key != [] && MatchAt(f.text, key, k)
    ensures found + Scan(u, f, key, wholeWord, k) ==
            if wholeWord && InsideWord(u, f.text, |key|, k) then found + Scan(u, f, key, wholeWord, k + 1)
            else found + [(f.at[k], f.at[k + |key| - 1] + 1)] + Scan(u, f, key, wholeWord, k + |key|)
  {
  }

  method FindKey(u: Unicode, f: Folded, key: Text, wholeWord: bool) returns (found: seq<Span>)
    requires |f.text| == |f.at| && key != []
    ensures found == Scan(u, f, key, wholeWord, 0)
  {
    found := [];
    var k := IndexOf(f.text, key, 0);
    ghost var all := Scan(u, f, key, wholeWord, 0);
    ghost var at := if k == -1 then |f.text| else k;
    ScanSkip(u, f, key, wholeWord, 0, at);
    while k != -1
      invariant at == (if k == -1 then |f.text| else k)
      invariant k != -1 ==> 0 <= k && MatchAt(f.text, key, k)
      invariant found + Scan(u, f, key, wholeWord, at) == all
      decreases if k == -1 then 0 else 1 + |f.text| - k
    {
      ScanHere(u, f, key, wholeWord, k, found);
      var next := k + 1;
      if !(wholeWord && InsideWord(u, f.text, |key|, k)) {
        next := k + |key|;
        found := found + [(f.at[k], f.at[k + |key| - 1] + 1)];
      }
      k := IndexOf(f.text, key, next);
      at := if k == -1 then |f.text| else k;
      ScanSkip(u, f, key, wholeWord, next, at);
    }
  }

  // ----- What an occurrence is in the source

  /** Spans in document order, never overlapping, each starting and ending on visible text. */
  predicate InOrder(s: Text, spans: seq<Span>) {
    && (forall i :: 0 <= i < |spans| ==> spans[i].0 < spans[i].1 <= |s|)
    && (forall i :: 0 <= i < |spans| ==> !IsSpace(s[spans[i].0]) && !IsSpace(s[spans[i].1 - 1]))
    && (forall i, j :: 0 <= i < j < |spans| ==> spans[i].1 <= spans[j].0)
  }

  /** One match of a searchable key: a span of s that starts and ends on visible text. */
  lemma MatchIsVisible(u: Unicode, s: Text, keepBreaks: bool, f: Folded, key: Text, k: nat)
    requires FoldOf(u, s, keepBreaks, f) && VisibleEnds(key) && MatchAt(f.text, key, k)
    ensures f.at[k] <= f.at[k + |key| - 1] < |s|
    ensures !IsSpace(s[f.at[k]]) && !IsSpace(s[f.at[k + |key| - 1]])
  {
    assert f.text[k + 0] == key[0];
    assert f.text[k + (|key| - 1)] == key[|key| - 1];
  }

  ghost predicate StartAtOrAfter(spans: seq<Span>, f: Folded, from: nat) {
    spans != [] ==> from < |f.at| && forall i :: 0 <= i < |spans| ==> f.at[from] <= spans[i].0
  }

  lemma {:induction false} ScanInOrder(
    u: Unicode, s: Text, keepBreaks: bool, f: Folded, key: Text, wholeWord: bool, from: nat)
    requires FoldOf(u, s, keepBreaks, f) && VisibleEnds(key)
    ensures InOrder(s, Scan(u, f, key, wholeWord, from))
    ensures StartAtOrAfter(Scan(u, f, key, wholeWord, from), f, from)
    decreases |f.text| - from
  {
    if from + |key| <= |f.text| {
      var next := NextScan(u, f.text, key, wholeWord, from);
      ScanInOrder(u, s, keepBreaks, f, key, wholeWord, next);
      var rest := Scan(u, f, key, wholeWord, next);
      StartsEarlier(f, rest, from, next);
      if Hit(u, f.text, key, wholeWord, from) {
        MatchIsVisible(u, s, keepBreaks, f, key, from);
        OneMoreInOrder(s, f, rest, from, from + |key|);
      }
    }
  }

  lemma StartsEarlier(f: Folded, spans: seq<Span>, from: nat, next: nat)
    requires Ascending(f.at) && StartAtOrAfter(spans, f, next) && from <= next
    ensures StartAtOrAfter(spans, f, from)
  {
    forall i | 0 <= i < |spans|
      ensures f.at[from] <= spans[i].0
    {
      assert from < next ==> f.at[from] < f.at[next];
    }
  }

  lemma OneMoreInOrder(s: Text, f: Folded, rest: seq<Span>, from: nat, next: nat)
    requires Ascending(f.at) && InOrder(s, rest) && StartAtOrAfter(rest, f, next)
    requires from < next <= |f.at| && f.at[next - 1] < |s|
    requires !IsSpace(s[f.at[from]]) && !IsSpace(s[f.at[next - 1]])
    ensures InOrder(s, [(f.at[from], f.at[next - 1] + 1)] + rest)
    ensures StartAtOrAfter([(f.at[from], f.at[next - 1] + 1)] + rest, f, from)
  {
    var all := [(f.at[from], f.at[next - 1] + 1)] + rest;
    forall i | 0 <= i < |rest|
      ensures f.at[next - 1] + 1 <= rest[i].0 && f.at[from] <= rest[i].0
    {
      assert f.at[next - 1] < f.at[next] && f.at[from] < f.at[next];
    }
    assert f.at[from] <= f.at[next - 1];
    assert forall i :: 0 < i < |all| ==> all[i] == rest[i - 1];
  }

  lemma OccurrencesInOrder(u: Unicode, s: Text, keepBreaks: bool, needle: Text, wholeWord: bool)
    requires u.Sane()
    ensures InOrder(s, Occurrences(u, Folding(u, s, keepBreaks), needle, wholeWord))
  {
    KeyHasVisibleEnds(u, needle);
    if Key(u, needle) != [] {
      FoldingUnits(u, s, keepBreaks);
      ScanInOrder(u, s, keepBreaks, Folding(u, s, keepBreaks), Key(u, needle), wholeWord, 0);
    }
  }
}
