// stretchesFor and stretchesForEvery of trackedText.ts, and the matches
// word.ts's liveReplaceTargets picks by them.

module LiveTargets {
  import opened Wrappers
  import opened Utf16
  import opened FoldedText
  import opened Embedding
  import opened TrackedText
  import opened SelfMatch
  import opened Collections

  /** Where the occurrence a stretch names starts in the raw text. */
  ghost predicate NamesStart(u: Unicode, v: View, s: Stretch, at: int)
    requires |v.rawFolded.text| == |v.rawFolded.at|
  {
    var occ := Occurrences(u, v.rawFolded, s.text, false);
    s.nth < s.total == |occ| && occ[s.nth].0 == at
  }

  // ----- Views that do not line up: search the text as written

  function AsWritten(u: Unicode, v: View, needle: Text, wholeWord: bool, live: nat): (out: seq<Stretch>)
    requires |v.rawFolded.text| == |v.rawFolded.at|
    ensures out == [] || |out| == live
  {
    var total := |Occurrences(u, v.rawFolded, needle, wholeWord)|;
    if !Searchable(needle) || total != live then []
    else seq(live, nth requires 0 <= nth < live => Stretch(needle, nth, total))
  }

  // ----- One stretch per live occurrence

  ghost predicate Parts(v: View, live: seq<Span>) {
    forall i :: 0 <= i < |live| ==> Live(v, live[i].0, live[i].1)
  }

  ghost function Best(u: Unicode, v: View, start: nat, end: nat): Option<Stretch>
    requires Live(v, start, end)
  {
    var l := Stretches(u, v, start, end, false);
    if l == [] then None else Some(l[0])
  }

  lemma BestIs(u: Unicode, v: View, start: nat, end: nat)
    requires Live(v, start, end)
    ensures Best(u, v, start, end) ==
            if TightCut(u, v, start, end, false).Some? then TightCut(u, v, start, end, false)
            else WideCut(u, v, start, end, false)
  {
  }

  /** The best stretch of each occurrence, where it has one. */
  ghost function Bests(u: Unicode, v: View, live: seq<Span>): (r: seq<Option<Stretch>>)
    requires Parts(v, live)
    ensures |r| == |live|
  {
    if live == [] then []
    else
      var n := |live| - 1;
      Bests(u, v, live[..n]) + [Best(u, v, live[n].0, live[n].1)]
  }

  lemma {:induction false} BestsAt(u: Unicode, v: View, live: seq<Span>, i: nat)
    requires Parts(v, live) && i < |live|
    ensures Bests(u, v, live)[i] == Best(u, v, live[i].0, live[i].1)
  {
    if i < |live| - 1 {
      BestsAt(u, v, live[..|live| - 1], i);
    }
  }

  /** The values present, in order. */
  function Somes<T>(os: seq<Option<T>>): (r: seq<T>)
    ensures |r| <= |os|
    ensures |r| == |os| ==> forall i :: 0 <= i < |os| ==> os[i] == Some(r[i])
    ensures forall i :: 0 <= i < |r| ==> Some(r[i]) in os
  {
    if os == [] then []
    else
      var r := Somes(os[..|os| - 1]);
      match os[|os| - 1]
      case None => r
      case Some(x) => r + [x]
  }

  /** The live occurrences of a needle. */
  function LiveSpans(u: Unicode, v: View, needle: Text, wholeWord: bool): seq<Span>
    requires |v.folded.text| == |v.folded.at|
  {
    Occurrences(u, v.folded, needle, wholeWord)
  }

  lemma LiveSpansArePlaced(u: Unicode, v: View, needle: Text, wholeWord: bool)
    requires u.Sane() && v.Built(u)
    ensures InOrder(v.current, LiveSpans(u, v, needle, wholeWord))
    ensures v.e.Some? ==> Parts(v, LiveSpans(u, v, needle, wholeWord))
  {
    OccurrencesInOrder(u, v.current, false, needle, wholeWord);
  }

  ghost function FirstOffers(u: Unicode, v: View, needle: Text, wholeWord: bool): seq<Stretch>
    requires u.Sane() && v.Built(u)
  {
    LiveSpansArePlaced(u, v, needle, wholeWord);
    var live := LiveSpans(u, v, needle, wholeWord);
    if live == [] then []
    else if v.e.Some? then Stretches(u, v, live[0].0, live[0].1, wholeWord)
    else
      var w := AsWritten(u, v, needle, wholeWord, |live|);
      if w == [] then [] else w[..1]
  }

  ghost function EveryOffer(u: Unicode, v: View, needle: Text): seq<Stretch>
    requires u.Sane() && v.Built(u)
  {
    LiveSpansArePlaced(u, v, needle, false);
    var live := LiveSpans(u, v, needle, false);
    if v.e.Some? then Somes(Bests(u, v, live))
    else AsWritten(u, v, needle, false, |live|)
  }

  method StretchesFor(u: Unicode, v: View, needle: Text, wholeWord: bool) returns (out: seq<Stretch>)
    requires u.Sane() && v.Built(u)
    ensures out == FirstOffers(u, v, needle, wholeWord)
  {
    LiveSpansArePlaced(u, v, needle, wholeWord);
    var live := FindOccurrences(u, v.folded, needle, wholeWord);
    if |live| == 0 {
      return [];
    }
    match v.e
    case None =>
      var w := AsWritten(u, v, needle, wholeWord, |live|);
      out := if |w| == 0 then [] else w[..1];
    case Some(_) =>
      out := StretchesAt(u, v, live[0].0, live[0].1, wholeWord);
  }

  method StretchesForEvery(u: Unicode, v: View, needle: Text) returns (out: seq<Stretch>)
    requires u.Sane() && v.Built(u)
    ensures out == EveryOffer(u, v, needle)
  {
    LiveSpansArePlaced(u, v, needle, false);
    var live := FindOccurrences(u, v.folded, needle, false);
    if |live| == 0 {
      return [];
    }
    if v.e.None? {
      return AsWritten(u, v, needle, false, |live|);
    }
    out := BestOfEach(u, v, live);
  }

  method BestOfEach(u: Unicode, v: View, live: seq<Span>) returns (out: seq<Stretch>)
    requires Parts(v, live)
    ensures out == Somes(Bests(u, v, live))
  {
    out := [];
    for i := 0 to |live|
      invariant PartsBefore(v, live, i) && out == Somes(Bests(u, v, live[..i]))
    {
      OneMoreBest(u, v, live, i);
      var offers := StretchesAt(u, v, live[i].0, live[i].1, false);
      if |offers| > 0 {
        out := out + [offers[0]];
      }
    }
    assert live[..|live|] == live;
  }

  ghost predicate PartsBefore(v: View, live: seq<Span>, n: nat) {
    n <= |live| && Parts(v, live[..n])
  }

  lemma OneMoreBest(u: Unicode, v: View, live: seq<Span>, i: nat)
    requires Parts(v, live) && i < |live| && PartsBefore(v, live, i)
    ensures PartsBefore(v, live, i + 1) && Live(v, live[i].0, live[i].1)
    ensures var offers := Stretches(u, v, live[i].0, live[i].1, false);
            var before := Somes(Bests(u, v, live[..i]));
            Somes(Bests(u, v, live[..i + 1])) == if offers == [] then before else before + [offers[0]]
  {
    var best := Best(u, v, live[i].0, live[i].1);
    BestsMore(u, v, live, i);
    SomesMore(Bests(u, v, live[..i]), best);
  }

  lemma BestsMore(u: Unicode, v: View, live: seq<Span>, i: nat)
    requires Parts(v, live) && i < |live|
    ensures Parts(v, live[..i]) && Parts(v, live[..i + 1]) && Live(v, live[i].0, live[i].1)
    ensures Bests(u, v, live[..i + 1]) == Bests(u, v, live[..i]) + [Best(u, v, live[i].0, live[i].1)]
  {
    assert live[..i + 1][..i] == live[..i];
  }

  lemma SomesMore<T>(os: seq<Option<T>>, o: Option<T>)
    ensures Somes(os + [o]) == if o.None? then Somes(os) else Somes(os) + [o.value]
  {
    assert (os + [o])[..|os|] == os;
  }

  // ----- The stretches follow the document

  lemma EdgesInOrder(v: View, start: nat, end: nat)
    requires Live(v, start, end)
    ensures v.e.value.left[start] <= v.e.value.right[start] && v.e.value.left[start] <= v.e.value.left[end - 1]
  {
    assert Below(v.current, v.e.value.left, v.e.value.right);
  }

  /** A best stretch is the tight one when that is offered, and ends with the
      last unit's earliest place; otherwise it starts at the first unit's
      earliest place. Either way it starts before that last unit. */
  lemma BestIsPlaced(u: Unicode, v: View, start: nat, end: nat) returns (from: int)
    requires Live(v, start, end) && Best(u, v, start, end).Some?
    ensures NamesStart(u, v, Best(u, v, start, end).value, from)
    ensures if TightCut(u, v, start, end, false).Some?
            then
              && from == v.e.value.right[start]
              && from + |Best(u, v, start, end).value.text| == v.e.value.left[end - 1] + 1
            else from == v.e.value.left[start]
    ensures v.e.value.left[start] <= from <= v.e.value.left[end - 1]
  {
    var e := v.e.value;
    var tight, wide := CutsAre(u, v, start, end, false);
    EdgesInOrder(v, start, end);
    BestIs(u, v, start, end);
    if tight.Some? {
      from := e.right[start];
      CutNamesItsStart(u, v, from, e.left[end - 1], tight.value);
    } else {
      from := e.left[start];
      CutNamesItsStart(u, v, from, e.right[end - 1], wide.value);
    }
  }

  lemma CutNamesItsStart(u: Unicode, v: View, first: nat, last: nat, s: Stretch)
    requires last < |v.raw| && |v.rawFolded.text| == |v.rawFolded.at| && IsCut(u, v, first, last, false, Some(s))
    ensures NamesStart(u, v, s, first) && |s.text| == last + 1 - first && first <= last
  {
    var k := CutIsPlaced(u, v, first, last + 1, false);
  }

  /** Of two live occurrences, the later one's stretch starts later in the raw
      text, and no earlier than the end of the earlier one's tight stretch. */
  lemma LaterStartsLater(u: Unicode, v: View, a: Span, b: Span) returns (p: int, q: int)
    requires Live(v, a.0, a.1) && Live(v, b.0, b.1) && a.1 <= b.0
    requires Best(u, v, a.0, a.1).Some? && Best(u, v, b.0, b.1).Some?
    ensures NamesStart(u, v, Best(u, v, a.0, a.1).value, p) && NamesStart(u, v, Best(u, v, b.0, b.1).value, q)
    ensures p < q
    ensures TightCut(u, v, a.0, a.1, false).Some? ==> p + |Best(u, v, a.0, a.1).value.text| <= q
  {
    p := BestIsPlaced(u, v, a.0, a.1);
    q := BestIsPlaced(u, v, b.0, b.1);
    LaterIsRight(v, a, b);
  }

  lemma LaterIsRight(v: View, a: Span, b: Span)
    requires Live(v, a.0, a.1) && Live(v, b.0, b.1) && a.1 <= b.0
    ensures v.e.value.left[a.1 - 1] < v.e.value.left[b.0]
  {
  }

  /** Which values are present. */
  function Present<T>(os: seq<Option<T>>): (flags: seq<bool>)
    ensures |flags| == |os| && forall i :: 0 <= i < |os| ==> flags[i] == os[i].Some?
  {
    seq(|os|, i requires 0 <= i < |os| => os[i].Some?)
  }

  lemma {:induction false} SomesStand<T>(os: seq<Option<T>>)
    ensures |Somes(os)| == |Where(Present(os))|
    ensures forall i :: 0 <= i < |Somes(os)| ==> os[Where(Present(os))[i]] == Some(Somes(os)[i])
  {
    if os != [] {
      var n := |os| - 1;
      SomesStand(os[..n]);
      assert Present(os)[..n] == Present(os[..n]);
    }
  }

  /** The live occurrences the offers are for, in order. */
  ghost function Offered(u: Unicode, v: View, needle: Text): (at: seq<nat>)
    requires u.Sane() && v.Built(u) && v.e.Some?
    ensures Ascending(at) && forall i :: 0 <= i < |at| ==> at[i] < |LiveSpans(u, v, needle, false)|
  {
    LiveSpansArePlaced(u, v, needle, false);
    Where(Present(Bests(u, v, LiveSpans(u, v, needle, false))))
  }

  lemma OfferIsFor(u: Unicode, v: View, needle: Text, i: nat)
    requires u.Sane() && v.Built(u) && v.e.Some? && i < |EveryOffer(u, v, needle)|
    ensures i < |Offered(u, v, needle)|
    ensures var a := LiveSpans(u, v, needle, false)[Offered(u, v, needle)[i]];
            Live(v, a.0, a.1) && Best(u, v, a.0, a.1) == Some(EveryOffer(u, v, needle)[i])
  {
    LiveSpansArePlaced(u, v, needle, false);
    var live := LiveSpans(u, v, needle, false);
    SomesStand(Bests(u, v, live));
    BestsAt(u, v, live, Offered(u, v, needle)[i]);
  }

  /** Stretch s, offered for live occurrence a, is the tight one. */
  ghost predicate IsTightFor(u: Unicode, v: View, s: Stretch, a: Span) {
    Live(v, a.0, a.1) && TightCut(u, v, a.0, a.1, false) == Some(s)
  }

  /** The occurrences the offers name start further and further on in the raw text,
      and a tight one ends before the next begins. */
  lemma OffersStartInOrder(u: Unicode, v: View, needle: Text, i: nat, j: nat) returns (p: int, q: int)
    requires u.Sane() && v.Built(u) && i < j < |EveryOffer(u, v, needle)|
    ensures NamesStart(u, v, EveryOffer(u, v, needle)[i], p) && NamesStart(u, v, EveryOffer(u, v, needle)[j], q)
    ensures p < q
    ensures v.e.Some? ==>
              var s := EveryOffer(u, v, needle)[i];
              && i < |Offered(u, v, needle)|
              && (IsTightFor(u, v, s, LiveSpans(u, v, needle, false)[Offered(u, v, needle)[i]]) ==> p + |s.text| <= q)
  {
    if v.e.Some? {
      OfferIsFor(u, v, needle, i);
      OfferIsFor(u, v, needle, j);
      LiveSpansArePlaced(u, v, needle, false);
      var live, at := LiveSpans(u, v, needle, false), Offered(u, v, needle);
      p, q := LaterStartsLater(u, v, live[at[i]], live[at[j]]);
    } else {
      OccurrencesInOrder(u, v.raw, true, needle, false);
      var occ := Occurrences(u, v.rawFolded, needle, false);
      p, q := occ[i].0, occ[j].0;
    }
  }

  // ----- liveReplaceTargets

  /** Word's answers inside one Word.run: its matches for a text taken literally,
      and taken as a wildcard pattern with the metacharacters escaped. */
  datatype WordSearch<R> = WordSearch(literal: Text -> seq<R>, escaped: Text -> seq<R>)

  datatype Refusal = NotInDocument | NotEveryOneFound

  /** \ [ ] { } ( ) < > ? * @ ! */
  const WILDCARDS: set<Unit> := {92, 91, 93, 123, 125, 40, 41, 60, 62, 63, 42, 64, 33}

  predicate HasWildcards(s: Text) {
    exists k :: 0 <= k < |s| && s[k] in WILDCARDS
  }

  /** Null unless Word found exactly as many matches as the raw text holds. */
  function StretchMatches<R>(word: WordSearch<R>, s: Stretch): Option<seq<R>> {
    var literal := word.literal(s.text);
    if |literal| == s.total then Some(literal)
    else if !HasWildcards(s.text) then None
    else
      var escaped := word.escaped(s.text);
      if |escaped| == s.total then Some(escaped) else None
  }

  /** The match a stretch picks. */
  function Pick<R>(word: WordSearch<R>, s: Stretch): Option<R> {
    match StretchMatches(word, s)
    case None => None
    case Some(m) => if s.nth < |m| then Some(m[s.nth]) else None
  }

  ghost predicate SomeWildcard(text: Text) {
    exists c :: c in text && c in WILDCARDS
  }

  /** Word finds the text as often as raw holds it: taken literally, or else, with
      a wildcard character in it, escaped. */
  ghost predicate Counted<R>(word: WordSearch<R>, text: Text, n: nat) {
    |word.literal(text)| == n || (SomeWildcard(text) && |word.escaped(text)| == n)
  }

  /** x is entry nth of the list with n entries, the literal one before the escaped. */
  ghost predicate IsEntry<R>(word: WordSearch<R>, text: Text, n: nat, nth: nat, x: R) {
    && nth < n
    && (|word.literal(text)| == n ==> word.literal(text)[nth] == x)
    && (|word.literal(text)| != n ==> SomeWildcard(text) && |word.escaped(text)| == n && word.escaped(text)[nth] == x)
  }

  lemma WildcardIsSome(text: Text)
    ensures HasWildcards(text) <==> SomeWildcard(text)
  {
    if c :| c in text && c in WILDCARDS {
      var k :| 0 <= k < |text| && text[k] == c;
    }
  }

  /** A stretch picks its entry of a list Word's count confirms, and nothing when none is confirmed. */
  lemma PickIsTheEntry<R>(word: WordSearch<R>, s: Stretch)
    requires s.nth < s.total
    ensures Pick(word, s).Some? <==> Counted(word, s.text, s.total)
    ensures Pick(word, s).Some? ==> IsEntry(word, s.text, s.total, s.nth, Pick(word, s).value)
  {
    WildcardIsSome(s.text);
  }

  function Picks<R>(word: WordSearch<R>, stretches: seq<Stretch>): (r: seq<R>)
    ensures |r| <= |stretches|
    ensures |r| == |stretches| ==>
              forall i :: 0 <= i < |stretches| ==> Pick(word, stretches[i]) == Some(r[i])
  {
    if stretches == [] then []
    else
      var n := |stretches| - 1;
      var r := Picks(word, stretches[..n]);
      match Pick(word, stretches[n])
      case None => r
      case Some(m) => r + [m]
  }

  /** The same text always carries the same total, so one search serves every stretch of that text. */
  ghost predicate Consistent(stretches: seq<Stretch>) {
    forall i, j :: 0 <= i < |stretches| && 0 <= j < |stretches| && stretches[i].text == stretches[j].text
                   ==> stretches[i].total == stretches[j].total
  }

  /** The stretch's text has `total` raw occurrences, and nth is one of them. */
  ghost predicate CountsAll(u: Unicode, v: View, s: Stretch)
    requires |v.rawFolded.text| == |v.rawFolded.at|
  {
    s.nth < s.total == |Occurrences(u, v.rawFolded, s.text, false)|
  }

  lemma BestCountsAll(u: Unicode, v: View, live: seq<Span>, s: Stretch)
    requires |v.rawFolded.text| == |v.rawFolded.at| && Parts(v, live)
    requires Some(s) in Bests(u, v, live)
    ensures CountsAll(u, v, s)
  {
    var i :| 0 <= i < |live| && Bests(u, v, live)[i] == Some(s);
    BestsAt(u, v, live, i);
    var from := BestIsPlaced(u, v, live[i].0, live[i].1);
  }

  lemma OffersCountAll(u: Unicode, v: View, needle: Text)
    requires u.Sane() && v.Built(u) && |v.rawFolded.text| == |v.rawFolded.at|
    ensures forall i :: 0 <= i < |EveryOffer(u, v, needle)| ==> CountsAll(u, v, EveryOffer(u, v, needle)[i])
    ensures AllInside(EveryOffer(u, v, needle))
  {
    var offers := EveryOffer(u, v, needle);
    LiveSpansArePlaced(u, v, needle, false);
    if v.e.Some? {
      forall i | 0 <= i < |offers|
        ensures CountsAll(u, v, offers[i])
      {
        BestCountsAll(u, v, LiveSpans(u, v, needle, false), offers[i]);
      }
    }
  }

  lemma CountedAreConsistent(u: Unicode, v: View, stretches: seq<Stretch>)
    requires |v.rawFolded.text| == |v.rawFolded.at|
    requires forall i :: 0 <= i < |stretches| ==> CountsAll(u, v, stretches[i])
    ensures Consistent(stretches)
  {
  }

  lemma OffersAreConsistent(u: Unicode, v: View, needle: Text)
    requires u.Sane() && v.Built(u)
    ensures Consistent(EveryOffer(u, v, needle))
  {
    OffersCountAll(u, v, needle);
    CountedAreConsistent(u, v, EveryOffer(u, v, needle));
  }

  /** Which stretches Word finds as often as raw holds them. */
  ghost function CountedOnes<R>(word: WordSearch<R>, stretches: seq<Stretch>): (flags: seq<bool>)
    ensures |flags| == |stretches|
    ensures forall i :: 0 <= i < |stretches| ==> flags[i] == Counted(word, stretches[i].text, stretches[i].total)
  {
    seq(|stretches|, i requires 0 <= i < |stretches| => Counted(word, stretches[i].text, stretches[i].total))
  }

  ghost predicate AllInside(stretches: seq<Stretch>) {
    forall i :: 0 <= i < |stretches| ==> stretches[i].nth < stretches[i].total
  }

  /** found holds the entry of each stretch Word's count confirms, in order, and nothing else. */
  ghost predicate EntriesOf<R>(word: WordSearch<R>, stretches: seq<Stretch>, found: seq<R>) {
    var at := Where(CountedOnes(word, stretches));
    && |found| == |at|
    && forall i :: 0 <= i < |at| ==>
         IsEntry(word, stretches[at[i]].text, stretches[at[i]].total, stretches[at[i]].nth, found[i])
  }

  lemma {:induction false} PicksAreEntries<R>(word: WordSearch<R>, stretches: seq<Stretch>)
    requires AllInside(stretches)
    ensures EntriesOf(word, stretches, Picks(word, stretches))
  {
    if stretches != [] {
      var n := |stretches| - 1;
      PicksAreEntries(word, stretches[..n]);
      PickIsTheEntry(word, stretches[n]);
      assert CountedOnes(word, stretches)[..n] == CountedOnes(word, stretches[..n]);
    }
  }

  method PickAll<R>(word: WordSearch<R>, stretches: seq<Stretch>) returns (found: seq<R>)
    requires Consistent(stretches)
    ensures found == Picks(word, stretches)
    ensures AllInside(stretches) ==> EntriesOf(word, stretches, found)
  {
    if AllInside(stretches) {
      PicksAreEntries(word, stretches);
    }
    var searched: map<Text, Option<seq<R>>> := map[];
    found := [];
    for i := 0 to |stretches|
      invariant found == Picks(word, stretches[..i])
      invariant forall t :: t in searched ==>
                  exists j :: 0 <= j < i && stretches[j].text == t && searched[t] == StretchMatches(word, stretches[j])
    {
      var s := stretches[i];
      assert stretches[..i + 1][..i] == stretches[..i];
      if s.text !in searched {
        searched := searched[s.text := StretchMatches(word, s)];
      }
      var matches := searched[s.text];
      assert matches == StretchMatches(word, s);
      if matches.Some? && s.nth < |matches.value| {
        found := found + [matches.value[s.nth]];
      }
    }
    assert stretches[..|stretches|] == stretches;
  }

  /** Word finds offer i as often as raw holds its text. */
  ghost predicate IsCounted<R>(u: Unicode, v: View, word: WordSearch<R>, s: Stretch)
    requires |v.rawFolded.text| == |v.rawFolded.at|
  {
    Counted(word, s.text, |Occurrences(u, v.rawFolded, s.text, false)|)
  }

  /** x is the match of Word's, of as many as raw holds of the stretch's text, that the stretch names. */
  ghost predicate IsNamed<R>(u: Unicode, v: View, word: WordSearch<R>, s: Stretch, x: R)
    requires |v.rawFolded.text| == |v.rawFolded.at|
  {
    IsEntry(word, s.text, |Occurrences(u, v.rawFolded, s.text, false)|, s.nth, x)
  }

  ghost predicate AllCounted<R>(u: Unicode, v: View, word: WordSearch<R>, offers: seq<Stretch>)
    requires |v.rawFolded.text| == |v.rawFolded.at|
  {
    forall i :: 0 <= i < |offers| ==> IsCounted(u, v, word, offers[i])
  }

  ghost predicate AllNamed<R>(u: Unicode, v: View, word: WordSearch<R>, offers: seq<Stretch>, found: seq<R>)
    requires |v.rawFolded.text| == |v.rawFolded.at|
  {
    |found| <= |offers| && forall i :: 0 <= i < |found| ==> IsNamed(u, v, word, offers[i], found[i])
  }

  lemma {:induction false} WhereAll(flags: seq<bool>)
    ensures |Where(flags)| <= |flags|
    ensures |Where(flags)| == |flags| <==> forall i :: 0 <= i < |flags| ==> flags[i]
    ensures |Where(flags)| == |flags| ==> forall i :: 0 <= i < |flags| ==> Where(flags)[i] == i
  {
    if flags != [] {
      WhereAll(flags[..|flags| - 1]);
    }
  }

  lemma EntriesAreNamed<R>(u: Unicode, v: View, word: WordSearch<R>, offers: seq<Stretch>, found: seq<R>)
    requires |v.rawFolded.text| == |v.rawFolded.at| && EntriesOf(word, offers, found)
    requires forall i :: 0 <= i < |offers| ==> CountsAll(u, v, offers[i])
    ensures |found| <= |offers|
    ensures |found| == |offers| <==> AllCounted(u, v, word, offers)
    ensures |found| == |offers| ==> AllNamed(u, v, word, offers, found)
  {
    WhereAll(CountedOnes(word, offers));
    forall i | 0 <= i < |offers|
      ensures CountedOnes(word, offers)[i] == IsCounted(u, v, word, offers[i])
    {
      assert CountsAll(u, v, offers[i]);
    }
    if |found| == |offers| {
      forall i | 0 <= i < |found|
        ensures IsNamed(u, v, word, offers[i], found[i])
      {
        assert CountsAll(u, v, offers[i]) && Where(CountedOnes(word, offers))[i] == i;
      }
    }
  }

  /** All or nothing: for every live occurrence, up to the cap, the match its
      offer names among as many as raw holds; a refusal when one occurrence has
      no offer or Word's count differs for one. */
  method LiveReplaceTargets<R>(u: Unicode, v: View, word: WordSearch<R>, target: Text, cap: nat)
    returns (r: Result<seq<R>, Refusal>)
    requires u.Sane() && v.Built(u)
    ensures var offers := EveryOffer(u, v, target);
            var live := |LiveSpans(u, v, target, false)|;
            && (r == Fail(NotInDocument) <==> live == 0)
            && (r.Ok? <==> live > 0 && |offers| == live && AllCounted(u, v, word, offers))
            && (r.Ok? ==> |r.value| == (if live < cap then live else cap) && AllNamed(u, v, word, offers, r.value))
  {
    OffersAreConsistent(u, v, target);
    OffersAtMostLive(u, v, target);
    var offers := StretchesForEvery(u, v, target);
    OffersCountAll(u, v, target);
    var found := PickAll(word, offers);
    EntriesAreNamed(u, v, word, offers, found);
    var spans := FindOccurrences(u, v.folded, target, false);
    var live := |spans|;
    if live == 0 {
      return Fail(NotInDocument);
    }
    if |found| < live {
      return Fail(NotEveryOneFound);
    }
    r := Ok(if |found| < cap then found else found[..cap]);
  }

  lemma OffersAtMostLive(u: Unicode, v: View, needle: Text)
    requires u.Sane() && v.Built(u)
    ensures |EveryOffer(u, v, needle)| <= |LiveSpans(u, v, needle, false)|
  {
    LiveSpansArePlaced(u, v, needle, false);
  }

  // ----- What the picks are, when Word counts as we count

  /** Word's literal matches for the stretch's text are its raw occurrences, in document order. */
  ghost predicate Answers(u: Unicode, v: View, word: WordSearch<Span>, s: Stretch)
    requires |v.rawFolded.text| == |v.rawFolded.at|
  {
    word.literal(s.text) == Occurrences(u, v.rawFolded, s.text, false)
  }

  /** So they are for every text searched for. */
  ghost predicate Agrees(u: Unicode, v: View, word: WordSearch<Span>, target: Text)
    requires u.Sane() && v.Built(u) && |v.rawFolded.text| == |v.rawFolded.at|
  {
    forall i :: 0 <= i < |EveryOffer(u, v, target)| ==> Answers(u, v, word, EveryOffer(u, v, target)[i])
  }

  lemma PickStarts(u: Unicode, v: View, word: WordSearch<Span>, s: Stretch, at: int)
    requires |v.rawFolded.text| == |v.rawFolded.at| && Answers(u, v, word, s) && NamesStart(u, v, s, at)
    ensures Pick(word, s).Some? && Pick(word, s).value.0 == at
  {
  }

  /** No two live occurrences are given the same match: the picks' starts strictly increase. */
  lemma PicksAreDistinct(u: Unicode, v: View, word: WordSearch<Span>, target: Text, i: nat, j: nat)
    requires u.Sane() && v.Built(u) && Agrees(u, v, word, target)
    requires i < j < |EveryOffer(u, v, target)|
    ensures Pick(word, EveryOffer(u, v, target)[i]).Some? && Pick(word, EveryOffer(u, v, target)[j]).Some?
    ensures Pick(word, EveryOffer(u, v, target)[i]).value.0 < Pick(word, EveryOffer(u, v, target)[j]).value.0
  {
    var p, q := OffersStartInOrder(u, v, target, i, j);
    PickStarts(u, v, word, EveryOffer(u, v, target)[i], p);
    PickStarts(u, v, word, EveryOffer(u, v, target)[j], q);
  }

  /** Both edges of current [start, end) can sit in one place only. */
  ghost predicate Unambiguous(v: View, start: nat, end: nat)
    requires Part(v, start, end)
  {
    v.e.value.left[start] == v.e.value.right[start] && v.e.value.left[end - 1] == v.e.value.right[end - 1]
  }

  ghost predicate NamesSpan(u: Unicode, v: View, s: Stretch, span: (int, int))
    requires |v.rawFolded.text| == |v.rawFolded.at|
  {
    var occ := Occurrences(u, v.rawFolded, s.text, false);
    s.nth < s.total == |occ| && occ[s.nth].0 == span.0 && occ[s.nth].1 == span.1
  }

  lemma ExactWhenUnambiguous(v: View, start: nat, end: nat, f: seq<int>)
    requires Live(v, start, end) && Unambiguous(v, start, end) && Places(v.raw, v.current, f)
    ensures |f| == |v.current|
    ensures Tight(v.e.value, start, end) == Wide(v.e.value, start, end) == TrueSpan(f, start, end)
  {
    ExactWhenUnique(v.raw, v.current, v.e.value, f, start, end);
  }

  /** The stretch offered for a live part: the tight one where it can be found, or else the wide one. */
  ghost function OfferedSpan(u: Unicode, v: View, start: nat, end: nat): (int, int)
    requires Live(v, start, end)
  {
    if TightCut(u, v, start, end, false).Some? then Tight(v.e.value, start, end) else Wide(v.e.value, start, end)
  }

  /** A reading f puts the part's edges where the stretch offered has them. */
  ghost predicate EdgesMeet(u: Unicode, v: View, start: nat, end: nat, f: seq<int>)
    requires Live(v, start, end) && |f| == |v.current|
  {
    var e := v.e.value;
    if TightCut(u, v, start, end, false).Some? then f[start] == e.right[start] && f[end - 1] == e.left[end - 1]
    else f[start] == e.left[start] && f[end - 1] == e.right[end - 1]
  }

  /** A searchable cut from one visible unit to another, which NFC leaves alone. */
  lemma CutIsClean(u: Unicode, v: View, from: nat, stop: nat)
    requires from < stop <= |v.raw| && !IsSpace(v.raw[from]) && !IsSpace(v.raw[stop - 1])
    requires Searchable(v.raw[from..stop]) && u.nfc(v.raw[from..stop]) == v.raw[from..stop]
    ensures Clean(u, v.raw, from, stop)
  {
    var t := v.raw[from..stop];
    assert t[0] == v.raw[from] && t[|t| - 1] == v.raw[stop - 1];
    assert forall i :: from <= i < stop ==> t[i - from] == v.raw[i];
  }

  /** The span offered lies in raw and its edges are those of the live part. */
  lemma OfferedEdges(u: Unicode, v: View, start: nat, end: nat)
    requires Live(v, start, end) && Best(u, v, start, end).Some?
    requires !IsSpace(v.current[start]) && !IsSpace(v.current[end - 1])
    ensures var w := OfferedSpan(u, v, start, end);
            && 0 <= w.0 < w.1 <= |v.raw| && !IsSpace(v.raw[w.0]) && !IsSpace(v.raw[w.1 - 1])
            && Cut(u, v, w.0, w.1, false) == Best(u, v, start, end)
  {
    StretchBounds(v, start, end);
    BestIs(u, v, start, end);
  }

  /** The best stretch names the very span it was cut from. */
  lemma BestNamesItself(u: Unicode, v: View, start: nat, end: nat, s: Stretch)
    requires u.Sane() && v.Built(u) && Live(v, start, end)
    requires !IsSpace(v.current[start]) && !IsSpace(v.current[end - 1])
    requires Best(u, v, start, end) == Some(s) && u.nfc(s.text) == s.text
    ensures NamesSpan(u, v, s, OfferedSpan(u, v, start, end))
  {
    var w := OfferedSpan(u, v, start, end);
    OfferedEdges(u, v, start, end);
    var k := CutIsPlaced(u, v, w.0, w.1, false);
    CutIsClean(u, v, w.0, w.1);
    StretchNamesItself(u, v, w.0, w.1, false);
  }

  lemma PickIsNamed(u: Unicode, v: View, word: WordSearch<Span>, s: Stretch, span: (int, int))
    requires |v.rawFolded.text| == |v.rawFolded.at| && Answers(u, v, word, s) && NamesSpan(u, v, s, span)
    ensures Pick(word, s) == Some(span)
  {
  }

  /** s is the offer for live occurrence a. */
  ghost predicate IsOffer(u: Unicode, v: View, target: Text, i: nat, a: Span, s: Stretch)
    requires u.Sane() && v.Built(u) && v.e.Some?
  {
    && i < |EveryOffer(u, v, target)| && s == EveryOffer(u, v, target)[i]
    && i < |Offered(u, v, target)| && a == LiveSpans(u, v, target, false)[Offered(u, v, target)[i]]
  }

  lemma OfferIsAnswered(u: Unicode, v: View, word: WordSearch<Span>, target: Text, i: nat, a: Span, s: Stretch)
    requires u.Sane() && v.Built(u) && Agrees(u, v, word, target) && v.e.Some? && IsOffer(u, v, target, i, a, s)
    ensures Answers(u, v, word, s)
  {
  }

  lemma OfferIsVisible(u: Unicode, v: View, target: Text, i: nat, a: Span, s: Stretch)
    requires u.Sane() && v.Built(u) && v.e.Some? && IsOffer(u, v, target, i, a, s)
    ensures 0 <= a.0 < a.1 <= |v.current| && !IsSpace(v.current[a.0]) && !IsSpace(v.current[a.1 - 1])
  {
    LiveSpansArePlaced(u, v, target, false);
    SpanIsVisible(v.current, LiveSpans(u, v, target, false), Offered(u, v, target)[i], a);
  }

  lemma SpanIsVisible(s: Text, spans: seq<Span>, k: nat, a: Span)
    requires InOrder(s, spans) && k < |spans| && a == spans[k]
    ensures 0 <= a.0 < a.1 <= |s| && !IsSpace(s[a.0]) && !IsSpace(s[a.1 - 1])
  {
  }

  lemma OfferIsTheBest(u: Unicode, v: View, target: Text, i: nat, a: Span, s: Stretch)
    requires u.Sane() && v.Built(u) && v.e.Some? && IsOffer(u, v, target, i, a, s)
    ensures Live(v, a.0, a.1) && Best(u, v, a.0, a.1) == Some(s)
  {
    OfferIsFor(u, v, target, i);
  }

  /** The match picked for an offer whose text NFC leaves alone is the stretch
      offered for its live occurrence. */
  lemma PickIsTheOffer(u: Unicode, v: View, word: WordSearch<Span>, target: Text, i: nat, a: Span, s: Stretch)
    requires u.Sane() && v.Built(u) && Agrees(u, v, word, target) && v.e.Some? && IsOffer(u, v, target, i, a, s)
    requires u.nfc(s.text) == s.text
    ensures Live(v, a.0, a.1) && Pick(word, s) == Some(OfferedSpan(u, v, a.0, a.1))
  {
    OfferIsVisible(u, v, target, i, a, s);
    OfferIsTheBest(u, v, target, i, a, s);
    OfferIsAnswered(u, v, word, target, i, a, s);
    PickOfBest(u, v, word, a, s);
  }

  lemma PickOfBest(u: Unicode, v: View, word: WordSearch<Span>, a: Span, s: Stretch)
    requires u.Sane() && v.Built(u) && Live(v, a.0, a.1) && Answers(u, v, word, s)
    requires !IsSpace(v.current[a.0]) && !IsSpace(v.current[a.1 - 1])
    requires Best(u, v, a.0, a.1) == Some(s) && u.nfc(s.text) == s.text
    ensures Pick(word, s) == Some(OfferedSpan(u, v, a.0, a.1))
  {
    BestNamesItself(u, v, a.0, a.1, s);
    PickIsNamed(u, v, word, s, OfferedSpan(u, v, a.0, a.1));
  }

  /** The pick is the part's span under reading f of the struck runs. */
  ghost predicate IsRead(v: View, pick: Option<Span>, start: nat, end: nat, f: seq<int>)
    requires Part(v, start, end)
  {
    |f| == |v.current| && pick == Some(TrueSpan(f, start, end))
  }

  ghost predicate IsReadByAll(v: View, pick: Option<Span>, start: nat, end: nat)
    requires Part(v, start, end)
  {
    forall f :: Places(v.raw, v.current, f) ==> IsRead(v, pick, start, end, f)
  }

  lemma OfferIsReadIff(u: Unicode, v: View, start: nat, end: nat, f: seq<int>)
    requires Live(v, start, end) && Places(v.raw, v.current, f)
    ensures |f| == |v.current|
    ensures IsRead(v, Some(OfferedSpan(u, v, start, end)), start, end, f) <==> EdgesMeet(u, v, start, end, f)
  {
  }

  lemma OfferIsReadByAllIff(u: Unicode, v: View, start: nat, end: nat)
    requires Live(v, start, end)
    ensures IsReadByAll(v, Some(OfferedSpan(u, v, start, end)), start, end) <==> Unambiguous(v, start, end)
  {
    var pick, e := Some(OfferedSpan(u, v, start, end)), v.e.value;
    if Unambiguous(v, start, end) {
      forall f | Places(v.raw, v.current, f)
        ensures IsRead(v, pick, start, end, f)
      {
        ExactWhenUnambiguous(v, start, end, f);
      }
    }
    if IsReadByAll(v, pick, start, end) {
      assert IsRead(v, pick, start, end, e.left) && IsRead(v, pick, start, end, e.right);
    }
  }

  /** The match replaced is the live text's span under a reading f of the struck
      runs exactly when f puts the occurrence's edges where the stretch offered
      has them, and under every reading exactly when both edges have one place. */
  lemma PickIsTheLiveText(
    u: Unicode, v: View, word: WordSearch<Span>, target: Text, i: nat, a: Span, s: Stretch, f: seq<int>)
    requires u.Sane() && v.Built(u) && Agrees(u, v, word, target) && v.e.Some? && IsOffer(u, v, target, i, a, s)
    requires u.nfc(s.text) == s.text && Places(v.raw, v.current, f)
    ensures Live(v, a.0, a.1) && |f| == |v.current|
    ensures IsRead(v, Pick(word, s), a.0, a.1, f) <==> EdgesMeet(u, v, a.0, a.1, f)
    ensures IsReadByAll(v, Pick(word, s), a.0, a.1) <==> Unambiguous(v, a.0, a.1)
  {
    PickIsTheOffer(u, v, word, target, i, a, s);
    OfferIsReadIff(u, v, a.0, a.1, f);
    OfferIsReadByAllIff(u, v, a.0, a.1);
  }
}
