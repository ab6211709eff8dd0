// The stretches of raw text trackedText.ts offers for a quote of the
// accepted-changes text, and which raw occurrence each of them names.

module TrackedText {
  import opened Wrappers
  import opened Utf16
  import opened FoldedText
  import opened Embedding

  /** What to search for in raw, how many occurrences it has there, and the place of the right one among them. */
  datatype Stretch = Stretch(text: Text, nth: nat, total: nat)

  const WORD_SEARCH_LIMIT := 255

  predicate Searchable(s: Text) {
    0 < |s| <= WORD_SEARCH_LIMIT && forall k :: 0 <= k < |s| ==> !IsBreak(s[k]) && s[k] != 9
  }

  datatype View = View(raw: Text, current: Text, folded: Folded, rawFolded: Folded, e: Option<Placements>) {
    /** What trackedView builds. */
    ghost predicate Built(u: Unicode) {
      && folded == Folding(u, current, false)
      && rawFolded == Folding(u, raw, true)
      && (e.None? <==> !Subsequence(WithoutBreaks(current), raw))
      && (e.Some? ==> Extremal(raw, current, e.value))
    }
  }

  /** Null when the two texts differ by nothing but breaks. */
  method TrackedView(u: Unicode, raw: Text, current: Text) returns (v: Option<View>)
    ensures v.None? <==> WithoutBreaks(raw) == WithoutBreaks(current)
    ensures v.Some? ==> v.value.raw == raw && v.value.current == current && v.value.Built(u)
  {
    if WithoutBreaks(raw) == WithoutBreaks(current) {
      return None;
    }
    var folded := FoldText(u, current, false);
    var rawFolded := FoldText(u, raw, true);
    var e := Embed(raw, current);
    v := Some(View(raw, current, folded, rawFolded, e));
  }

  // ----- One stretch

  /** Place of the occurrence starting at `at`, if one does. */
  function StartingAt(spans: seq<Span>, at: int): (r: Option<nat>)
    ensures r.Some? ==> r.value < |spans| && spans[r.value].0 == at
    ensures r.None? ==> forall i :: 0 <= i < |spans| ==> spans[i].0 != at
  {
    if spans == [] then None
    else if spans[0].0 == at then Some(0)
    else
      match StartingAt(spans[1..], at)
      case Some(i) => Some(i + 1)
      case None => None
  }

  /** raw[from..to) as a stretch: searchable, and a counted occurrence starts where it was cut. */
  function Cut(u: Unicode, v: View, from: nat, to: nat, wholeWord: bool): Option<Stretch>
    requires from <= to <= |v.raw| && |v.rawFolded.text| == |v.rawFolded.at|
  {
    var text := v.raw[from..to];
    var all := Occurrences(u, v.rawFolded, text, wholeWord);
    match StartingAt(all, from)
    case Some(nth) => if Searchable(text) then Some(Stretch(text, nth, |all|)) else None
    case None => None
  }

  /** A non-empty part of the current text, in a view whose texts line up. */
  ghost predicate Part(v: View, start: nat, end: nat) {
    && v.e.Some? && Extremal(v.raw, v.current, v.e.value)
    && |v.rawFolded.text| == |v.rawFolded.at|
    && start < end <= |v.current|
  }

  /** One that starts and ends on visible text, as every occurrence does. */
  ghost predicate Live(v: View, start: nat, end: nat) {
    Part(v, start, end) && !IsBreak(v.current[start]) && !IsBreak(v.current[end - 1])
  }

  lemma LiveEdges(v: View, start: nat, end: nat)
    requires Part(v, start, end)
    ensures Live(v, start, end) <==> v.e.value.left[start] >= 0 && v.e.value.right[end - 1] >= 0
  {
  }

  lemma StretchBounds(v: View, start: nat, end: nat)
    requires Live(v, start, end)
    ensures 0 <= Wide(v.e.value, start, end).0 < Wide(v.e.value, start, end).1 <= |v.raw|
    ensures 0 <= Tight(v.e.value, start, end).0 < |v.raw| && 0 < Tight(v.e.value, start, end).1 <= |v.raw|
    ensures Wide(v.e.value, start, end).0 < Tight(v.e.value, start, end).1
  {
    assert Below(v.current, v.e.value.left, v.e.value.right);
    assert v.e.value.left[start] <= v.e.value.left[end - 1];
  }

  /** The tight stretch, when its edges do not cross. */
  ghost function TightCut(u: Unicode, v: View, start: nat, end: nat, wholeWord: bool): Option<Stretch>
    requires Live(v, start, end)
  {
    StretchBounds(v, start, end);
    var t := Tight(v.e.value, start, end);
    if t.0 < t.1 then Cut(u, v, t.0, t.1, wholeWord) else None
  }

  ghost function WideCut(u: Unicode, v: View, start: nat, end: nat, wholeWord: bool): Option<Stretch>
    requires Live(v, start, end)
  {
    StretchBounds(v, start, end);
    Cut(u, v, Wide(v.e.value, start, end).0, Wide(v.e.value, start, end).1, wholeWord)
  }

  predicate Holds(sofar: seq<Stretch>, text: Text) {
    exists i :: 0 <= i < |sofar| && sofar[i].text == text
  }

  function Offer(sofar: seq<Stretch>, o: Option<Stretch>): seq<Stretch> {
    if o.None? || Holds(sofar, o.value.text) then sofar else sofar + [o.value]
  }

  /** Tight first, then wide; the same text is not offered twice. */
  ghost function Stretches(u: Unicode, v: View, start: nat, end: nat, wholeWord: bool): seq<Stretch>
    requires Part(v, start, end)
  {
    if !Live(v, start, end) then []
    else Offer(Offer([], TightCut(u, v, start, end, wholeWord)), WideCut(u, v, start, end, wholeWord))
  }

  /** Offers the stretch from one place to another, both included. */
  method Add(
    u: Unicode, v: View, first: nat, last: nat, wholeWord: bool, sofar: seq<Stretch>, ghost cut: Option<Stretch>)
    returns (out: seq<Stretch>)
    requires first <= last < |v.raw| && |v.rawFolded.text| == |v.rawFolded.at|
    requires IsCut(u, v, first, last, wholeWord, cut)
    ensures out == Offer(sofar, cut)
  {
    var text := v.raw[first..last + 1];
    if !Searchable(text) || Holds(sofar, text) {
      return sofar;
    }
    var all := FindOccurrences(u, v.rawFolded, text, wholeWord);
    match StartingAt(all, first)
    case Some(nth) => out := sofar + [Stretch(text, nth, |all|)];
    case None => out := sofar;
  }

  /** Both cuts of a live part, from the edges' places. */
  lemma CutsAre(u: Unicode, v: View, start: nat, end: nat, wholeWord: bool)
    returns (tight: Option<Stretch>, wide: Option<Stretch>)
    requires Live(v, start, end)
    ensures var e := v.e.value;
            && 0 <= e.left[start] <= e.right[end - 1] < |v.raw| && 0 <= e.right[start] && e.left[end - 1] < |v.raw|
            && IsCut(u, v, e.right[start], e.left[end - 1], wholeWord, tight)
            && IsCut(u, v, e.left[start], e.right[end - 1], wholeWord, wide)
    ensures tight == TightCut(u, v, start, end, wholeWord) && wide == WideCut(u, v, start, end, wholeWord)
    ensures Stretches(u, v, start, end, wholeWord) == Offer(Offer([], tight), wide)
  {
    StretchBounds(v, start, end);
    tight, wide := TightCut(u, v, start, end, wholeWord), WideCut(u, v, start, end, wholeWord);
  }

  /** o is the stretch from one place to another, both included; none when they cross. */
  ghost predicate IsCut(u: Unicode, v: View, first: int, last: int, wholeWord: bool, o: Option<Stretch>)
    requires 0 <= first && last < |v.raw| && |v.rawFolded.text| == |v.rawFolded.at|
  {
    o == if first <= last then Cut(u, v, first, last + 1, wholeWord) else None
  }

  method StretchesAt(u: Unicode, v: View, start: nat, end: nat, wholeWord: bool) returns (out: seq<Stretch>)
    requires Part(v, start, end)
    ensures out == Stretches(u, v, start, end, wholeWord)
  {
    var e := v.e.value;
    LiveEdges(v, start, end);
    if e.left[start] < 0 || e.right[end - 1] < 0 {
      return [];
    }
    ghost var tight, wide := CutsAre(u, v, start, end, wholeWord);
    out := [];
    if e.right[start] <= e.left[end - 1] {
      out := Add(u, v, e.right[start], e.left[end - 1], wholeWord, out, tight);
    }
    out := Add(u, v, e.left[start], e.right[end - 1], wholeWord, out, wide);
  }
}
