// A stretch cut out of the raw text is found where it was cut, and what is found
// there is the whole stretch and nothing more.

module SelfMatch {
  import opened Utf16
  import opened FoldedText
  import opened TrackedText

  // ----- Normalising a break-free text before folding it changes nothing

  lemma {:induction false} CollapsedEnd(s: Text)
    ensures s != [] ==> CollapseSpaces(s) != []
    ensures s != [] && IsSpace(s[|s| - 1]) ==> CollapseSpaces(s)[|CollapseSpaces(s)| - 1] == SPACE
    ensures s != [] && !IsSpace(s[|s| - 1]) ==> CollapseSpaces(s)[|CollapseSpaces(s)| - 1] == s[|s| - 1]
    ensures s != [] && !IsSpace(s[0]) ==> CollapseSpaces(s)[0] == s[0]
  {
    if |s| > 1 {
      CollapsedEnd(s[..|s| - 1]);
    }
  }

  /** Folding one more unit. */
  function FoldOn(t: Text, c: Unit): Text {
    if c == SPACE && EndsWithSpace(t) then t else t + [c]
  }

  lemma FoldingStep(u: Unicode, t: Text, c: Unit)
    ensures Folding(u, t + [c], false).text == FoldOn(Folding(u, t, false).text, Fold(u, c))
  {
    assert (t + [c])[..|t|] == t;
  }

  lemma FoldStraightened(u: Unicode, c: Unit)
    requires u.Sane()
    ensures Fold(u, Straighten(c)) == Fold(u, c)
    ensures IsSpace(Straighten(c)) <==> Fold(u, c) == SPACE
  {
    assert !IsSpace(c) ==> !IsSpace(u.lower(c));
  }

  lemma CollapsedOn(s: Text, d: Unit)
    ensures var p := CollapseSpaces(s);
            CollapseSpaces(s + [d]) == if !IsSpace(d) then p + [d] else FoldOn(p, SPACE)
  {
    assert (s + [d])[..|s|] == s;
  }

  /** Collapsing before folding: the step for one unit. */
  lemma CollapseStep(u: Unicode, s: Text, c: Unit)
    requires u.Sane()
    ensures Folding(u, CollapseSpaces(s + [Straighten(c)]), false).text
            == FoldOn(Folding(u, CollapseSpaces(s), false).text, Fold(u, c))
  {
    var p := CollapseSpaces(s);
    CollapsedOn(s, Straighten(c));
    FoldStraightened(u, c);
    FoldEnds(u, p);
    FoldingStep(u, p, SPACE);
    FoldingStep(u, p, Straighten(c));
  }

  /** A text that ends with a space folds to one that does. */
  lemma FoldEnds(u: Unicode, p: Text)
    ensures EndsWithSpace(p) ==> EndsWithSpace(Folding(u, p, false).text)
  {
    if p != [] {
      FoldingEnd(u, p, false);
    }
  }

  lemma {:induction false} CollapseFolds(u: Unicode, t: Text)
    requires u.Sane()
    ensures Folding(u, CollapseSpaces(StraightenAll(t)), false).text == Folding(u, t, false).text
  {
    if t != [] {
      var n := |t| - 1;
      CollapseFolds(u, t[..n]);
      assert StraightenAll(t) == StraightenAll(t[..n]) + [Straighten(t[n])];
      assert t == t[..n] + [t[n]];
      CollapseFoldsOn(u, StraightenAll(t[..n]), t[..n], t[n]);
    }
  }

  lemma CollapseFoldsOn(u: Unicode, s: Text, t: Text, c: Unit)
    requires u.Sane() && Folding(u, CollapseSpaces(s), false).text == Folding(u, t, false).text
    ensures Folding(u, CollapseSpaces(s + [Straighten(c)]), false).text == Folding(u, t + [c], false).text
  {
    CollapseStep(u, s, c);
    FoldingStep(u, t, c);
  }

  predicate Trimmed(t: Text) {
    t != [] && !IsSpace(t[0]) && !IsSpace(t[|t| - 1])
  }

  /** The key of a trimmed text NFC leaves alone is its own folding. */
  lemma KeyOfTrimmed(u: Unicode, t: Text)
    requires u.Sane() && Trimmed(t) && u.nfc(t) == t
    ensures Key(u, t) == Folding(u, t, false).text
  {
    CollapseFolds(u, t);
    CollapsedEnd(StraightenAll(t));
  }

  // ----- A break-free part folds the same inside the whole text

  /** The folding of a part, shifted to where the part begins, follows the folding of what is before it. */
  ghost predicate Continues(before: Folded, part: Folded, whole: Folded, from: nat)
    requires |before.text| == |before.at| && |part.text| == |part.at| && |whole.text| == |whole.at|
  {
    && whole.text == before.text + part.text
    && forall i :: 0 <= i < |part.at| ==> whole.at[|before.at| + i] == from + part.at[i]
  }

  /** The part [from, stop) folds inside the text up to its end as it does alone. */
  ghost predicate Extends(u: Unicode, raw: Text, from: nat, stop: nat)
    requires from <= stop <= |raw|
  {
    Continues(Folding(u, raw[..from], true), Folding(u, raw[from..stop], false), Folding(u, raw[..stop], true), from)
  }

  lemma PartStep(u: Unicode, raw: Text, from: nat, stop: nat)
    requires from < stop < |raw| && !IsBreak(raw[stop])
    requires Extends(u, raw, from, stop)
    ensures Extends(u, raw, from, stop + 1)
  {
    assert raw[..stop + 1][..stop] == raw[..stop];
    assert raw[from..stop + 1][..stop - from] == raw[from..stop];
    FoldingEnd(u, raw[from..stop], false);
  }

  lemma PartStart(u: Unicode, raw: Text, from: nat)
    requires u.Sane() && from < |raw| && !IsSpace(raw[from])
    ensures Extends(u, raw, from, from + 1)
  {
    assert raw[..from + 1][..from] == raw[..from];
    assert raw[from..from + 1] == [] + [raw[from]];
    FoldingStep(u, [], raw[from]);
    assert !IsSpace(u.lower(raw[from]));
  }

  lemma {:induction false} PartFolds(u: Unicode, raw: Text, from: nat, stop: nat)
    requires u.Sane() && from < stop <= |raw| && !IsSpace(raw[from])
    requires forall i :: from <= i < stop ==> !IsBreak(raw[i])
    ensures Extends(u, raw, from, stop)
    decreases stop
  {
    if stop > from + 1 {
      PartFolds(u, raw, from, stop - 1);
      PartStep(u, raw, from, stop - 1);
    } else {
      PartStart(u, raw, from);
    }
  }

  lemma {:induction false} PrefixFolds(u: Unicode, raw: Text, m: nat)
    requires m <= |raw|
    ensures Folding(u, raw[..m], true).text <= Folding(u, raw, true).text
    ensures Folding(u, raw[..m], true).at <= Folding(u, raw, true).at
  {
    if m < |raw| {
      var r := raw[..|raw| - 1];
      PrefixFolds(u, r, m);
      assert r[..m] == raw[..m];
    } else {
      assert raw[..m] == raw;
    }
  }

  /** Index in the folding of the unit kept from raw[from]. */
  function FoldIndex(u: Unicode, raw: Text, from: nat): nat
    requires from <= |raw|
  {
    |Folding(u, raw[..from], true).text|
  }

  ghost predicate Clean(u: Unicode, raw: Text, from: nat, stop: nat) {
    && from < stop <= |raw| && Trimmed(raw[from..stop])
    && (forall i :: from <= i < stop ==> !IsBreak(raw[i]))
    && u.nfc(raw[from..stop]) == raw[from..stop]
  }

  lemma PartEnds(u: Unicode, t: Text)
    requires u.Sane() && Trimmed(t)
    ensures var at := Folding(u, t, false).at; at != [] && at[0] == 0 && at[|at| - 1] == |t| - 1
  {
    var f := Folding(u, t, false);
    FoldingUnits(u, t, false);
    FoldingKeeps(u, t, false, 0);
    FoldingKeeps(u, t, false, |t| - 1);
    FoldStraightened(u, t[|t| - 1]);
    assert !IsSpace(t[|t| - 1]) ==> !IsSpace(u.lower(t[|t| - 1]));
    assert 0 in f.at && |t| - 1 in f.at;
  }

  lemma AtCut(whole: Folded, prefix: Folded, before: Folded, part: Folded, from: nat, n: nat)
    requires |before.text| == |before.at| && |part.text| == |part.at| && |prefix.text| == |prefix.at|
    requires Continues(before, part, prefix, from)
    requires prefix.text <= whole.text && prefix.at <= whole.at
    requires part.at != [] && part.at[0] == 0 && part.at[|part.at| - 1] == n - 1
    ensures MatchAt(whole.text, part.text, |before.text|) && |before.text| + |part.text| <= |whole.at|
    ensures whole.at[|before.text|] == from && whole.at[|before.text| + |part.text| - 1] == from + n - 1
  {
    assert prefix.at[|before.at| + 0] == from + part.at[0];
    assert prefix.at[|before.at| + (|part.at| - 1)] == from + part.at[|part.at| - 1];
  }

  /** The cut's own key matches at the cut, and that match spans exactly the cut. */
  lemma MatchesWhereCut(u: Unicode, raw: Text, from: nat, stop: nat)
    requires u.Sane() && Clean(u, raw, from, stop)
    ensures var f := Folding(u, raw, true);
            var key := Key(u, raw[from..stop]);
            var k := FoldIndex(u, raw, from);
            && key != [] && MatchAt(f.text, key, k)
            && f.at[k] == from && f.at[k + |key| - 1] == stop - 1
  {
    var t := raw[from..stop];
    assert t[0] == raw[from];
    KeyOfTrimmed(u, t);
    PartEnds(u, t);
    PartFolds(u, raw, from, stop);
    PrefixFolds(u, raw, stop);
    AtCut(Folding(u, raw, true), Folding(u, raw[..stop], true), Folding(u, raw[..from], true), Folding(u, t, false),
          from, stop - from);
  }

  /** What a cut says about the occurrences it was placed among. */
  lemma CutIsPlaced(u: Unicode, v: View, from: nat, stop: nat, wholeWord: bool) returns (k: nat)
    requires from <= stop <= |v.raw| && |v.rawFolded.text| == |v.rawFolded.at|
    requires Cut(u, v, from, stop, wholeWord).Some?
    ensures var s := Cut(u, v, from, stop, wholeWord).value;
            var occ := Occurrences(u, v.rawFolded, s.text, wholeWord);
            var key := Key(u, s.text);
            && s.text == v.raw[from..stop] && Searchable(s.text)
            && s.nth < s.total == |occ| && key != [] && MatchAt(v.rawFolded.text, key, k)
            && occ[s.nth] == (from, v.rawFolded.at[k + |key| - 1] + 1) && v.rawFolded.at[k] == from
  {
    var s := Cut(u, v, from, stop, wholeWord).value;
    k := ScanAt(u, v.rawFolded, Key(u, s.text), wholeWord, 0, s.nth);
  }

  /** The occurrence a stretch names is the stretch itself, from its first unit to its last. */
  lemma StretchNamesItself(u: Unicode, v: View, from: nat, stop: nat, wholeWord: bool)
    requires u.Sane() && v.Built(u) && Clean(u, v.raw, from, stop)
    requires Cut(u, v, from, stop, wholeWord).Some?
    ensures var s := Cut(u, v, from, stop, wholeWord).value;
            && s.nth < |Occurrences(u, v.rawFolded, s.text, wholeWord)|
            && Occurrences(u, v.rawFolded, s.text, wholeWord)[s.nth] == (from, stop)
  {
    var k := CutIsPlaced(u, v, from, stop, wholeWord);
    PlacedWhereCut(u, v.raw, v.rawFolded, from, stop, k);
  }

  lemma PlacedWhereCut(u: Unicode, raw: Text, f: Folded, from: nat, stop: nat, k: nat)
    requires u.Sane() && f == Folding(u, raw, true) && Clean(u, raw, from, stop)
    requires MatchAt(f.text, Key(u, raw[from..stop]), k) && k < |f.at| && f.at[k] == from
    ensures 0 < k + |Key(u, raw[from..stop])| <= |f.at| && f.at[k + |Key(u, raw[from..stop])| - 1] + 1 == stop
  {
    var l := FoldIndex(u, raw, from);
    MatchesWhereCut(u, raw, from, stop);
    FoldingUnits(u, raw, true);
    assert l < |f.at| && f.at[l] == from;
    SameIndex(u, raw, f, k, l);
  }

  lemma SameIndex(u: Unicode, raw: Text, f: Folded, k: nat, l: nat)
    requires FoldOf(u, raw, true, f) && k < |f.at| && l < |f.at| && f.at[k] == f.at[l]
    ensures k == l
  {
  }
}
