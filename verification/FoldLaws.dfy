// What the search of raw and current text goes by, unit by unit: which units
// count as the same, what stands beside a whole word, and what can be searched for.

module FoldLaws {
  import opened Utf16
  import opened FoldedText
  import opened TrackedText
  import opened LiveTargets

  /** White space of ECMAScript that is no line break. */
  predicate IsBlank(c: Unit) {
    || c in {9, 32, 0xA0, 0x1680, 0x2028, 0x2029, 0x202F, 0x205F, 0x3000, 0xFEFF}
    || 0x2000 <= c <= 0x200A
  }

  /** All white space is one space, curly quotes are straight, and case does not
      matter; only a kept break stays apart. */
  lemma FoldIs(u: Unicode, c: Unit, keepBreaks: bool)
    ensures 10 <= c <= 13 ==> FoldUnit(u, c, keepBreaks) == if keepBreaks then 10 else 32
    ensures IsBlank(c) ==> FoldUnit(u, c, keepBreaks) == 32
    ensures c in {0x2018, 0x2019} ==> FoldUnit(u, c, keepBreaks) == 39
    ensures c in {0x201C, 0x201D} ==> FoldUnit(u, c, keepBreaks) == 34
    ensures !(10 <= c <= 13) && !IsBlank(c) && c !in {0x2018, 0x2019, 0x201C, 0x201D} ==>
              FoldUnit(u, c, keepBreaks) == u.lower(c)
  {
  }

  /** A needle is looked for in its normal form. */
  lemma KeyOfNormalForm(u: Unicode, a: Text, b: Text)
    requires u.nfc(a) == u.nfc(b)
    ensures Key(u, a) == Key(u, b)
  {
  }

  /** A break-free unit a text shows: its fold is in the key, in its place. */
  lemma MatchIsFolded(u: Unicode, s: Text, keepBreaks: bool, key: Text, k: nat, i: nat)
    requires MatchAt(Folding(u, s, keepBreaks).text, key, k) && i < |key|
    ensures var f := Folding(u, s, keepBreaks);
            k + i < |f.at| && f.at[k + i] < |s| && FoldUnit(u, s[f.at[k + i]], keepBreaks) == key[i]
  {
    FoldingUnits(u, s, keepBreaks);
  }

  /** A whole word has no word unit at either side. */
  lemma WholeWordStandsAlone(u: Unicode, text: Text, key: Text, i: nat)
    requires key != [] && i < |Hits(u, text, key, true, 0)|
    ensures var k := Hits(u, text, key, true, 0)[i];
            && k + |key| <= |text| && (k > 0 ==> !u.wordUnit(text[k - 1]))
            && (k + |key| < |text| ==> !u.wordUnit(text[k + |key|]))
  {
    HitsSound(u, text, key, true, 0);
    assert Hit(u, text, key, true, Hits(u, text, key, true, 0)[i]);
  }

  /** A match that stands alone so is counted, or overlaps one that is. */
  lemma StandingAloneIsCounted(u: Unicode, text: Text, key: Text, k: nat)
    requires key != [] && MatchAt(text, key, k) && (k > 0 ==> !u.wordUnit(text[k - 1]))
    requires k + |key| < |text| ==> !u.wordUnit(text[k + |key|])
    ensures Covers(Hits(u, text, key, true, 0), |key|, k)
  {
    HitsLeftmost(u, text, key, true, 0, k);
  }

  /** Word searches for at most 255 characters, and for no line break or tab. */
  lemma SearchableIff(s: Text)
    ensures Searchable(s) <==> 1 <= |s| <= 255 && forall k :: 0 <= k < |s| ==> !(9 <= s[k] <= 13)
  {
  }

  /** A cut is offered exactly when it is searchable and some counted occurrence starts
      where it was cut; it names the first such, and carries how many there are. */
  lemma CutIff(u: Unicode, v: View, from: nat, to: nat, wholeWord: bool)
    requires from <= to <= |v.raw| && |v.rawFolded.text| == |v.rawFolded.at|
    ensures var text := v.raw[from..to];
            var all := Occurrences(u, v.rawFolded, text, wholeWord);
            && (Cut(u, v, from, to, wholeWord).Some? <==>
                  Searchable(text) && exists i :: 0 <= i < |all| && all[i].0 == from)
            && (Cut(u, v, from, to, wholeWord).Some? ==>
                  var s := Cut(u, v, from, to, wholeWord).value;
                  && s.text == text && s.total == |all| && s.nth < |all| && all[s.nth].0 == from)
  {
  }

  /** The characters a search with wildcards takes for patterns. */
  lemma WildcardsAre(c: Unit)
    ensures c in WILDCARDS <==> exists ch :: ch in "\\[]{}()<>?*@!" && ch as int == c
  {
    assert forall ch :: ch in "\\[]{}()<>?*@!" ==> ch as int in WILDCARDS;
    if c in WILDCARDS {
      assert 0 <= c < 128;
      var ch := c as char;
      assert ch in "\\[]{}()<>?*@!" && ch as int == c;
    }
  }

  /** For a live part the tight cut is offered first, if there is one, and then
      the wide one, unless its text is the same; for any other part nothing. */
  lemma StretchesAre(u: Unicode, v: View, start: nat, end: nat, wholeWord: bool)
    requires Part(v, start, end)
    ensures !Live(v, start, end) ==> Stretches(u, v, start, end, wholeWord) == []
    ensures Live(v, start, end) ==>
              Stretches(u, v, start, end, wholeWord) ==
              match (TightCut(u, v, start, end, wholeWord), WideCut(u, v, start, end, wholeWord))
              case (None, None) => []
              case (None, Some(w)) => [w]
              case (Some(t), None) => [t]
              case (Some(t), Some(w)) => if w.text == t.text then [t] else [t, w]
  {
    if Live(v, start, end) {
      var tight := TightCut(u, v, start, end, wholeWord);
      assert tight.Some? ==> Offer([], tight)[0].text == tight.value.text;
    }
  }

  /** Views that do not line up: the text as written is offered for every live
      occurrence exactly when it is searchable and raw holds it as often as it is live. */
  lemma OfferedAsWritten(u: Unicode, v: View, needle: Text)
    requires u.Sane() && v.Built(u) && v.e.None? && |v.rawFolded.text| == |v.rawFolded.at|
    ensures var live := |LiveSpans(u, v, needle, false)|;
            var raw := |Occurrences(u, v.rawFolded, needle, false)|;
            if Searchable(needle) && raw == live
            then
              && |EveryOffer(u, v, needle)| == live
              && forall i :: 0 <= i < live ==> EveryOffer(u, v, needle)[i] == Stretch(needle, i, raw)
            else EveryOffer(u, v, needle) == []
  {
  }

  /** For one occurrence the offers are those of the first live one, or the text as written once. */
  lemma FirstOffersAre(u: Unicode, v: View, needle: Text, wholeWord: bool)
    requires u.Sane() && v.Built(u) && |v.rawFolded.text| == |v.rawFolded.at|
    ensures var live := LiveSpans(u, v, needle, wholeWord);
            var raw := |Occurrences(u, v.rawFolded, needle, wholeWord)|;
            && (live == [] ==> FirstOffers(u, v, needle, wholeWord) == [])
            && (live != [] && v.e.Some? ==>
                  Part(v, live[0].0, live[0].1)
                  && FirstOffers(u, v, needle, wholeWord) == Stretches(u, v, live[0].0, live[0].1, wholeWord))
            && (live != [] && v.e.None? ==>
                  FirstOffers(u, v, needle, wholeWord) ==
                  if Searchable(needle) && raw == |live| then [Stretch(needle, 0, raw)] else [])
  {
    LiveSpansArePlaced(u, v, needle, wholeWord);
  }
}
