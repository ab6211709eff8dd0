// A match liveReplaceTargets picks need not be the live text: the tight stretch
// of a live occurrence is searched for, found and replaced although no reading
// of the struck runs has it as the occurrence.

module TightPick {
  import opened Wrappers
  import opened Utf16
  import opened FoldedText
  import opened Embedding
  import opened TrackedText
  import opened SelfMatch
  import opened LiveTargets

  /** Text without white space folds unit by unit. */
  lemma {:induction false} PlainFolds(u: Unicode, s: Text, keepBreaks: bool)
    requires forall i :: 0 <= i < |s| ==> FoldUnit(u, s[i], keepBreaks) != SPACE
    ensures var f := Folding(u, s, keepBreaks);
            && |f.at| == |f.text| == |s|
            && forall i :: 0 <= i < |s| ==> f.at[i] == i && f.text[i] == FoldUnit(u, s[i], keepBreaks)
  {
    if s != [] {
      PlainFolds(u, s[..|s| - 1], keepBreaks);
    }
  }

  /** No match of the key starts before k and ends after it. */
  ghost predicate NoneReaches(text: Text, key: Text, k: nat) {
    forall p: nat :: p < k < p + |key| ==> !MatchAt(text, key, p)
  }

  /** A match no earlier one reaches into is counted. */
  lemma MatchIsCounted(u: Unicode, f: Folded, key: Text, k: nat) returns (i: nat)
    requires |f.text| == |f.at| && key != [] && MatchAt(f.text, key, k) && NoneReaches(f.text, key, k)
    ensures i < |Scan(u, f, key, false, 0)| && Scan(u, f, key, false, 0)[i].0 == f.at[k]
  {
    HitsSound(u, f.text, key, false, 0);
    HitsLeftmost(u, f.text, key, false, 0, k);
    ScanIsHits(u, f, key, false, 0);
    var h := Hits(u, f.text, key, false, 0);
    i :| 0 <= i < |h| && h[i] <= k < h[i] + |key|;
    assert h[i] == k;
  }

  /** A searchable clean cut that no earlier match of its own key reaches into is found. */
  lemma CutIsFound(u: Unicode, v: View, from: nat, stop: nat)
    requires u.Sane() && v.Built(u) && Clean(u, v.raw, from, stop) && Searchable(v.raw[from..stop])
    requires NoneReaches(v.rawFolded.text, Key(u, v.raw[from..stop]), FoldIndex(u, v.raw, from))
    ensures Cut(u, v, from, stop, false).Some?
  {
    MatchesWhereCut(u, v.raw, from, stop);
    FoldingUnits(u, v.raw, true);
    var i := MatchIsCounted(u, v.rawFolded, Key(u, v.raw[from..stop]), FoldIndex(u, v.raw, from));
  }

  // ----- "abc" live in raw "abacbc"

  /** The three letters are lower case, and NFC leaves the text alone. */
  ghost predicate Lower(u: Unicode, t: Text) {
    u.Sane() && u.lower(97) == 97 && u.lower(98) == 98 && u.lower(99) == 99 && u.nfc(t) == t
  }

  ghost predicate Example(u: Unicode, v: View, raw: Text, current: Text, tight: Text) {
    && raw == [97, 98, 97, 99, 98, 99] && current == [97, 98, 99] && tight == [97, 99]
    && Lower(u, tight) && Lower(u, current) && v.raw == raw && v.current == current && v.Built(u)
  }

  lemma ExamplePlaces(u: Unicode, v: View, raw: Text, current: Text, tight: Text)
    requires Example(u, v, raw, current, tight)
    ensures v.e == Some(Placements([0, 1, 3], [2, 4, 5])) && Extremal(raw, current, v.e.value)
  {
    SmallExtremal();
    var e := Placements([0, 1, 3], [2, 4, 5]);
    PlacementIsSubsequence(raw, current, e.left);
    SamePlacements(raw, current, v.e.value, e);
  }

  lemma SamePlacements(raw: Text, current: Text, d: Placements, e: Placements)
    requires Extremal(raw, current, d) && Extremal(raw, current, e)
    ensures d == e
  {
    assert Below(current, d.left, e.left) && Below(current, e.left, d.left);
    assert Below(current, d.right, e.right) && Below(current, e.right, d.right);
    assert d.left == e.left && d.right == e.right;
  }

  lemma ExampleFolds(u: Unicode, v: View, raw: Text, current: Text, tight: Text)
    requires Example(u, v, raw, current, tight)
    ensures v.rawFolded.text == raw && |v.rawFolded.at| == 6 && (forall i :: 0 <= i < 6 ==> v.rawFolded.at[i] == i)
    ensures FoldIndex(u, raw, 2) == 2
  {
    assert forall i :: 0 <= i < |raw| ==> FoldUnit(u, raw[i], true) == raw[i];
    PlainFolds(u, raw, true);
    PlainFolds(u, raw[..2], true);
  }

  lemma ExampleIsClean(u: Unicode, raw: Text, tight: Text)
    requires raw == [97, 98, 97, 99, 98, 99] && tight == [97, 99] && Lower(u, tight)
    ensures raw[2..4] == tight && Clean(u, raw, 2, 4) && Searchable(tight)
  {
    assert raw[2..4] == tight;
  }

  lemma ExampleIsFound(u: Unicode, v: View, raw: Text, current: Text, tight: Text)
    requires Example(u, v, raw, current, tight)
    ensures Cut(u, v, 2, 4, false).Some?
  {
    ExampleIsClean(u, raw, tight);
    ExampleFolds(u, v, raw, current, tight);
    MatchesWhereCut(u, raw, 2, 4);
    var key := Key(u, tight);
    assert v.rawFolded.at[2 + |key| - 1] == 3;
    assert key[0] == raw[2 + 0];
    assert forall p: nat :: p < 2 < p + |key| && MatchAt(raw, key, p) ==> p == 1 && raw[p + 0] == key[0];
    CutIsFound(u, v, 2, 4);
  }

  lemma ExampleIsLive(u: Unicode, v: View, raw: Text, current: Text, tight: Text)
    requires Example(u, v, raw, current, tight)
    ensures LiveSpans(u, v, current, false) == [(0, 3)]
  {
    assert forall i :: 0 <= i < |current| ==> FoldUnit(u, current[i], false) == current[i];
    PlainFolds(u, current, false);
    KeyOfTrimmed(u, current);
    assert v.folded.text == current;
    assert Scan(u, v.folded, current, false, 3) == [];
    assert Hit(u, current, current, false, 0);
  }

  lemma NoReadingIsTight(raw: Text, current: Text)
    requires current == [97, 98, 99]
    ensures forall f :: Places(raw, current, f) ==> |f| == 3 && TrueSpan(f, 0, 3) != (2, 4)
  {
    forall f | Places(raw, current, f)
      ensures |f| == 3 && TrueSpan(f, 0, 3) != (2, 4)
    {
      assert f[0] < f[1] < f[2];
    }
  }

  lemma OnlyOffer(u: Unicode, v: View, target: Text, s: Stretch)
    requires u.Sane() && v.Built(u) && v.e.Some? && LiveSpans(u, v, target, false) == [(0, 3)]
    requires Live(v, 0, 3) && Best(u, v, 0, 3) == Some(s)
    ensures EveryOffer(u, v, target) == [s]
  {
    LiveSpansArePlaced(u, v, target, false);
    var live: seq<Span> := [(0, 3)];
    assert live[..0] == [];
    assert Bests(u, v, live) == [Some(s)];
    assert [Some(s)][..0] == [];
  }

  lemma ExampleOffer(u: Unicode, v: View, raw: Text, current: Text, tight: Text) returns (s: Stretch)
    requires Example(u, v, raw, current, tight)
    ensures Live(v, 0, 3) && Best(u, v, 0, 3) == Some(s) && s.text == tight && OfferedSpan(u, v, 0, 3) == (2, 4)
  {
    ExamplePlaces(u, v, raw, current, tight);
    assert Live(v, 0, 3);
    ExampleIsFound(u, v, raw, current, tight);
    ExampleIsClean(u, raw, tight);
    BestIs(u, v, 0, 3);
    s := Best(u, v, 0, 3).value;
  }

  /** In raw "abacbc" the live "abc" is offered as "ac" alone, which Word finds
      and the caller replaces, and which is the live text under no reading at all. */
  lemma TightPickMissesTheText(
    u: Unicode, v: View, raw: Text, current: Text, tight: Text, word: WordSearch<Span>) returns (s: Stretch)
    requires Example(u, v, raw, current, tight)
    requires word.literal(tight) == Occurrences(u, v.rawFolded, tight, false)
    ensures LiveSpans(u, v, current, false) == [(0, 3)] && EveryOffer(u, v, current) == [s]
    ensures s.text == tight && Pick(word, s) == Some((2, 4)) && Live(v, 0, 3)
    ensures forall f :: Places(raw, current, f) ==> !IsRead(v, Pick(word, s), 0, 3, f)
  {
    s := ExampleOffer(u, v, raw, current, tight);
    ExampleIsLive(u, v, raw, current, tight);
    OnlyOffer(u, v, current, s);
    ExamplePick(u, v, raw, current, tight, word, s);
  }

  lemma ExamplePick(
    u: Unicode, v: View, raw: Text, current: Text, tight: Text, word: WordSearch<Span>, s: Stretch)
    requires Example(u, v, raw, current, tight) && Live(v, 0, 3) && Best(u, v, 0, 3) == Some(s)
    requires s.text == tight && OfferedSpan(u, v, 0, 3) == (2, 4) && Answers(u, v, word, s)
    ensures Pick(word, s) == Some((2, 4))
    ensures forall f :: Places(raw, current, f) ==> !IsRead(v, Pick(word, s), 0, 3, f)
  {
    PickOfBest(u, v, word, (0, 3), s);
    NoReadingIsTight(raw, current);
  }
}
