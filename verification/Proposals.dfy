// Edit proposals made applicable (parseEditBlocks.ts): a multi-line field edit is
// split line by line, duplicates are folded into one edit, and edits that change
// nothing or erase a blank are left out.

module Proposals {
  import opened Wrappers
  import opened Strings

  datatype Action = Replace | ReplaceAll | Insert | Delete

  datatype Edit = Edit(
    action: Action,
    target: Option<string>,
    newText: Option<string>,
    anchor: Option<string>,
    position: Option<string>,
    rationale: Option<string>,
    warning: Option<string>)

  // ----- Lines

  /** s.split(/\r?\n/) */
  function SplitLines(s: string): (ls: seq<string>)
    ensures ls != [] && forall i :: 0 <= i < |ls| ==> '\n' !in ls[i]
    decreases |s|
  {
    if s == [] then [""]
    else if s[0] == '\n' then [""] + SplitLines(s[1..])
    else if s[0] == '\r' && |s| > 1 && s[1] == '\n' then [""] + SplitLines(s[2..])
    else
      var rest := SplitLines(s[1..]);
      [[s[0]] + rest[0]] + rest[1..]
  }

  lemma {:induction false} OneLine(s: string)
    requires '\n' !in s
    ensures |SplitLines(s)| == 1
    decreases |s|
  {
    if s != [] {
      assert s == [s[0]] + s[1..];
      OneLine(s[1..]);
    }
  }

  // ----- Blanks: \[[\s_.\-]*\] or ___

  predicate BlankFill(ws: char -> bool, ch: char) {
    ws(ch) || ch == '_' || ch == '.' || ch == '-'
  }

  /** Length of the blank at the start of s, 0 when there is none. */
  function BlankLength(ws: char -> bool, s: string): (n: nat)
    ensures n <= |s|
  {
    if s == [] then 0
    else if s[0] == '[' then
      var k := 1 + RunLength(ch => BlankFill(ws, ch), s[1..]);
      if k < |s| && s[k] == ']' then k + 1 else 0
    else
      var u := RunLength(ch => ch == '_', s);
      if u >= 3 then u else 0
  }

  predicate HasBlank(ws: char -> bool, s: string)
    decreases |s|
  {
    s != [] && (BlankLength(ws, s) > 0 || HasBlank(ws, s[1..]))
  }

  function DropFirstBlank(ws: char -> bool, s: string): string
    decreases |s|
  {
    if s == [] then []
    else if BlankLength(ws, s) > 0 then s[BlankLength(ws, s)..]
    else [s[0]] + DropFirstBlank(ws, s[1..])
  }

  function DropBlanks(ws: char -> bool, s: string): string
    decreases |s|
  {
    if s == [] then []
    else if BlankLength(ws, s) > 0 then DropBlanks(ws, s[BlankLength(ws, s)..])
    else [s[0]] + DropBlanks(ws, s[1..])
  }

  predicate IsLabeledBlank(ws: char -> bool, line: string) {
    HasBlank(ws, line) && Trim(ws, DropFirstBlank(ws, line)) != ""
  }

  predicate IsFieldLine(ws: char -> bool, line: string) {
    ':' in line || HasBlank(ws, line)
  }

  // ----- splitMultilineFieldEdits

  type Pair = (string, string)

  function Tabs(s: string): seq<string> {
    SplitAt(ch => ch == '\t', s)
  }

  /** The pairs of segments that differ once trimmed. */
  function Changed(ws: char -> bool, t: seq<string>, n: seq<string>): (ps: seq<Pair>)
    requires |t| == |n|
    ensures |ps| <= |t|
    ensures forall i :: 0 <= i < |ps| ==> exists k :: 0 <= k < |t| && ps[i] == (Trim(ws, t[k]), Trim(ws, n[k]))
  {
    if t == [] then []
    else
      var p := Changed(ws, t[..|t| - 1], n[..|n| - 1]);
      var l := (Trim(ws, t[|t| - 1]), Trim(ws, n[|n| - 1]));
      if l.0 == l.1 then p else p + [l]
  }

  /** Keep only the changed column, when exactly one changed. */
  function ReduceTabSegment(ws: char -> bool, p: Pair): Pair {
    if '\t' !in p.0 || '\t' !in p.1 || |Tabs(p.0)| != |Tabs(p.1)| then p
    else
      var diffs := Changed(ws, Tabs(p.0), Tabs(p.1));
      if |diffs| == 1 then diffs[0] else p
  }

  function Diffs(ws: char -> bool, t: seq<string>, n: seq<string>): (ps: seq<Pair>)
    requires |t| == |n|
    ensures |ps| == |Changed(ws, t, n)|
    ensures forall i :: 0 <= i < |ps| ==> ps[i] == ReduceTabSegment(ws, Changed(ws, t, n)[i])
  {
    var c := Changed(ws, t, n);
    seq(|c|, i requires 0 <= i < |c| => ReduceTabSegment(ws, c[i]))
  }

  function FieldEdit(ws: char -> bool, d: Pair, rationale: Option<string>): Edit {
    Edit(if IsLabeledBlank(ws, d.0) then ReplaceAll else Replace, Some(d.0), Some(d.1), None, None, rationale, None)
  }

  predicate Missing(o: Option<string>) {
    o.None? || o.value == ""
  }

  predicate AllFields(ws: char -> bool, ds: seq<Pair>) {
    forall i :: 0 <= i < |ds| ==> IsFieldLine(ws, ds[i].0)
  }

  /** The edit is a block of field lines, two or more of them changed. */
  predicate Splits(ws: char -> bool, p: Edit) {
    && p.action == Replace && !Missing(p.target) && !Missing(p.newText)
    && var t := SplitLines(p.target.value);
       var n := SplitLines(p.newText.value);
       |t| >= 2 && |t| == |n| && |Diffs(ws, t, n)| >= 2 && AllFields(ws, Diffs(ws, t, n))
  }

  /** One edit per changed line of a splittable block; any other edit as it is. */
  function SplitEdit(ws: char -> bool, p: Edit): (es: seq<Edit>)
    ensures Splits(ws, p) ==>
              var ds := Diffs(ws, SplitLines(p.target.value), SplitLines(p.newText.value));
              |es| == |ds| && forall i :: 0 <= i < |ds| ==> es[i] == FieldEdit(ws, ds[i], p.rationale)
    ensures !Splits(ws, p) ==> es == [p]
  {
    if !Splits(ws, p) then [p]
    else
      var ds := Diffs(ws, SplitLines(p.target.value), SplitLines(p.newText.value));
      seq(|ds|, i requires 0 <= i < |ds| => FieldEdit(ws, ds[i], p.rationale))
  }

  method SplitMultilineFieldEdits(ws: char -> bool, p: Edit) returns (es: seq<Edit>)
    ensures es == SplitEdit(ws, p)
  {
    if p.action != Replace || Missing(p.target) || Missing(p.newText) {
      return [p];
    }
    var t, n := SplitLines(p.target.value), SplitLines(p.newText.value);
    if |t| < 2 || |t| != |n| {
      return [p];
    }
    var diffs: seq<Pair> := [];
    for i := 0 to |t|
      invariant diffs == Diffs(ws, t[..i], n[..i])
    {
      assert t[..i + 1][..i] == t[..i] && n[..i + 1][..i] == n[..i];
      var a, b := Trim(ws, t[i]), Trim(ws, n[i]);
      if a == b {
        continue;
      }
      diffs := diffs + [ReduceTabSegment(ws, (a, b))];
    }
    assert t[..|t|] == t && n[..|n|] == n;
    if |diffs| < 2 || !AllFields(ws, diffs) {
      return [p];
    }
    es := seq(|diffs|, i requires 0 <= i < |diffs| => FieldEdit(ws, diffs[i], p.rationale));
  }

  lemma {:induction false} SplitAtTakes(isBreak: char -> bool, s: string, x: char)
    requires x !in s
    ensures forall i :: 0 <= i < |SplitAt(isBreak, s)| ==> x !in SplitAt(isBreak, s)[i]
  {
    if s != [] {
      assert s == [s[0]] + s[1..];
      SplitAtTakes(isBreak, s[1..], x);
    }
  }

  lemma ChangedLinesAreLines(ws: char -> bool, t: seq<string>, n: seq<string>, i: nat)
    requires |t| == |n| && i < |Diffs(ws, t, n)|
    requires forall k :: 0 <= k < |t| ==> '\n' !in t[k]
    ensures '\n' !in Diffs(ws, t, n)[i].0
  {
    var c := Changed(ws, t, n)[i];
    var k :| 0 <= k < |t| && c == (Trim(ws, t[k]), Trim(ws, n[k]));
    assert '\n' !in c.0;
    if '\t' in c.0 && '\t' in c.1 && |Tabs(c.0)| == |Tabs(c.1)| && |Changed(ws, Tabs(c.0), Tabs(c.1))| == 1 {
      var d := Changed(ws, Tabs(c.0), Tabs(c.1))[0];
      var l :| 0 <= l < |Tabs(c.0)| && d == (Trim(ws, Tabs(c.0)[l]), Trim(ws, Tabs(c.1)[l]));
      SplitAtTakes(ch => ch == '\t', c.0, '\n');
    }
  }

  /** What a split leaves cannot be split again. */
  lemma SplitIsFixed(ws: char -> bool, p: Edit, i: nat)
    requires i < |SplitEdit(ws, p)|
    ensures SplitEdit(ws, SplitEdit(ws, p)[i]) == [SplitEdit(ws, p)[i]]
  {
    if Splits(ws, p) {
      var t := SplitLines(p.target.value);
      ChangedLinesAreLines(ws, t, SplitLines(p.newText.value), i);
      OneLine(SplitEdit(ws, p)[i].target.value);
    }
  }

  predicate ChangesLine(ws: char -> bool, t: seq<string>, n: seq<string>, k: nat)
    requires |t| == |n|
  {
    k < |t| && Trim(ws, t[k]) != Trim(ws, n[k])
  }

  lemma {:induction false} ChangedAre(ws: char -> bool, t: seq<string>, n: seq<string>) returns (at: seq<nat>)
    requires |t| == |n|
    ensures |at| == |Changed(ws, t, n)| && forall i, j :: 0 <= i < j < |at| ==> at[i] < at[j]
    ensures forall k: nat :: k in at <==> ChangesLine(ws, t, n, k)
    ensures forall i :: 0 <= i < |at| ==>
            at[i] < |t| && Changed(ws, t, n)[i] == (Trim(ws, t[at[i]]), Trim(ws, n[at[i]]))
  {
    at := [];
    if t != [] {
      var l := |t| - 1;
      at := ChangedAre(ws, t[..l], n[..l]);
      assert forall k: nat :: ChangesLine(ws, t[..l], n[..l], k) <==> k < l && ChangesLine(ws, t, n, k);
      if ChangesLine(ws, t, n, l) {
        assert forall i :: 0 <= i < |at| ==> at[i] in at;
        at := at + [l];
      }
    }
  }

  /** A split gives exactly one edit per changed line, in order: each replaces
      that line's text, or its one changed column, and is a replace_all when it fills a labeled blank. */
  lemma SplitIsPerLine(ws: char -> bool, p: Edit) returns (at: seq<nat>)
    requires Splits(ws, p)
    ensures var t, n := SplitLines(p.target.value), SplitLines(p.newText.value);
            && |t| == |n| && |at| == |SplitEdit(ws, p)| >= 2
            && (forall i, j :: 0 <= i < j < |at| ==> at[i] < at[j])
            && (forall k: nat :: k in at <==> ChangesLine(ws, t, n, k))
            && (forall i :: 0 <= i < |at| ==> at[i] < |t|)
            && (forall i :: 0 <= i < |at| ==>
                  SplitEdit(ws, p)[i] ==
                  FieldEdit(ws, ReduceTabSegment(ws, (Trim(ws, t[at[i]]), Trim(ws, n[at[i]]))), p.rationale))
  {
    at := ChangedAre(ws, SplitLines(p.target.value), SplitLines(p.newText.value));
  }

  function SplitAll(ws: char -> bool, es: seq<Edit>): seq<Edit> {
    if es == [] then [] else SplitAll(ws, es[..|es| - 1]) + SplitEdit(ws, es[|es| - 1])
  }

  ghost predicate Unsplittable(ws: char -> bool, es: seq<Edit>) {
    forall i :: 0 <= i < |es| ==> SplitEdit(ws, es[i]) == [es[i]]
  }

  lemma {:induction false} SplitAllIsFixed(ws: char -> bool, es: seq<Edit>)
    ensures Unsplittable(ws, SplitAll(ws, es))
  {
    if es != [] {
      SplitAllIsFixed(ws, es[..|es| - 1]);
      var last := es[|es| - 1];
      forall i | 0 <= i < |SplitEdit(ws, last)|
        ensures SplitEdit(ws, SplitEdit(ws, last)[i]) == [SplitEdit(ws, last)[i]]
      {
        SplitIsFixed(ws, last, i);
      }
    }
  }

  lemma {:induction false} SplitAllOfFixed(ws: char -> bool, es: seq<Edit>)
    requires Unsplittable(ws, es)
    ensures SplitAll(ws, es) == es
  {
    if es != [] {
      SplitAllOfFixed(ws, es[..|es| - 1]);
      assert es == es[..|es| - 1] + [es[|es| - 1]];
    }
  }

  // ----- collapseDuplicateFills

  type Key = (string, string, string, string)

  function OrEmpty(o: Option<string>): string {
    match o
    case None => ""
    case Some(s) => s
  }

  function KeyOf(e: Edit): Key {
    (OrEmpty(e.target), OrEmpty(e.newText), OrEmpty(e.anchor), OrEmpty(e.position))
  }

  /** The keys, each where it is first seen. */
  function Keys(es: seq<Edit>): seq<Key> {
    if es == [] then []
    else
      var p := Keys(es[..|es| - 1]);
      var k := KeyOf(es[|es| - 1]);
      if k in p then p else p + [k]
  }

  function Group(es: seq<Edit>, k: Key): seq<Edit> {
    if es == [] then []
    else
      var p := Group(es[..|es| - 1], k);
      if KeyOf(es[|es| - 1]) == k then p + [es[|es| - 1]] else p
  }

  /** One edit for a group: a text replacement seen twice or more becomes a replace_all. */
  function Merge(group: seq<Edit>): Edit
    requires group != []
  {
    var first := group[0];
    if |group| > 1 && (first.action == Replace || first.action == ReplaceAll)
    then first.(action := ReplaceAll) else first
  }

  lemma {:induction false} GroupsAreFound(es: seq<Edit>, k: Key)
    ensures k in Keys(es) <==> Group(es, k) != []
    ensures forall i :: 0 <= i < |Group(es, k)| ==> KeyOf(Group(es, k)[i]) == k && Group(es, k)[i] in es
  {
    if es != [] {
      GroupsAreFound(es[..|es| - 1], k);
      assert es == es[..|es| - 1] + [es[|es| - 1]];
    }
  }

  function MergeAll(es: seq<Edit>, ks: seq<Key>): (r: seq<Edit>)
    requires forall i :: 0 <= i < |ks| ==> ks[i] in Keys(es)
    ensures |r| == |ks|
    ensures forall i :: 0 <= i < |ks| ==> Group(es, ks[i]) != [] && r[i] == Merge(Group(es, ks[i]))
  {
    if ks == [] then []
    else
      GroupsAreFound(es, ks[|ks| - 1]);
      MergeAll(es, ks[..|ks| - 1]) + [Merge(Group(es, ks[|ks| - 1]))]
  }

  function Collapse(es: seq<Edit>): seq<Edit> {
    MergeAll(es, Keys(es))
  }

  method CollapseDuplicateFills(es: seq<Edit>) returns (out: seq<Edit>)
    ensures out == Collapse(es)
  {
    var order: seq<Key> := [];
    var groups: map<Key, seq<Edit>> := map[];
    for i := 0 to |es|
      invariant order == Keys(es[..i])
      invariant forall k :: k in groups <==> k in order
      invariant forall k :: k in groups ==> groups[k] == Group(es[..i], k)
    {
      assert es[..i + 1][..i] == es[..i];
      var k := KeyOf(es[i]);
      GroupsAreFound(es[..i], k);
      if k !in groups {
        groups := groups[k := []];
        order := order + [k];
      }
      groups := groups[k := groups[k] + [es[i]]];
    }
    assert es[..|es|] == es;
    out := [];
    for i := 0 to |order|
      invariant forall j :: 0 <= j < i ==> order[j] in Keys(es)
      invariant out == MergeAll(es, order[..i])
    {
      var group := groups[order[i]];
      GroupsAreFound(es, order[i]);
      assert order[..i + 1][..i] == order[..i];
      out := out + [Merge(group)];
    }
    assert order[..|order|] == order;
  }

  predicate Distinct(ks: seq<Key>) {
    forall i, j :: 0 <= i < j < |ks| ==> ks[i] != ks[j]
  }

  lemma {:induction false} KeysAreDistinct(es: seq<Edit>)
    ensures Distinct(Keys(es))
  {
    if es != [] {
      KeysAreDistinct(es[..|es| - 1]);
    }
  }

  /** First-seen order, one edit per key, each carrying its group's key; only a
      repeated text replacement is promoted, anything else keeps its first copy. */
  lemma CollapseFolds(es: seq<Edit>)
    ensures |Collapse(es)| == |Keys(es)| && Distinct(Keys(es))
    ensures forall i :: 0 <= i < |Keys(es)| ==>
              var group := Group(es, Keys(es)[i]);
              && group != [] && KeyOf(Collapse(es)[i]) == Keys(es)[i]
              && (|group| == 1 ==> Collapse(es)[i] == group[0])
              && (|group| > 1 && (group[0].action == Replace || group[0].action == ReplaceAll) ==>
                    Collapse(es)[i] == group[0].(action := ReplaceAll))
              && (group[0].action == Insert || group[0].action == Delete ==> Collapse(es)[i] == group[0])
  {
    KeysAreDistinct(es);
    forall i | 0 <= i < |Keys(es)|
      ensures Group(es, Keys(es)[i]) != [] && KeyOf(Group(es, Keys(es)[i])[0]) == Keys(es)[i]
    {
      GroupsAreFound(es, Keys(es)[i]);
    }
  }

  function KeysOf(es: seq<Edit>): (ks: seq<Key>)
    ensures |ks| == |es| && forall i :: 0 <= i < |es| ==> ks[i] == KeyOf(es[i])
  {
    seq(|es|, i requires 0 <= i < |es| => KeyOf(es[i]))
  }

  /** Edits with pairwise distinct keys are their own collapse. */
  lemma {:induction false} DistinctKeys(es: seq<Edit>)
    requires Distinct(KeysOf(es))
    ensures Keys(es) == KeysOf(es)
  {
    if es != [] {
      var n := |es| - 1;
      assert KeysOf(es)[..n] == KeysOf(es[..n]);
      DistinctKeys(es[..n]);
    }
  }

  lemma {:induction false} SingleGroup(es: seq<Edit>, i: nat)
    requires Distinct(KeysOf(es)) && i < |es|
    ensures Group(es, KeyOf(es[i])) == [es[i]]
  {
    var n := |es| - 1;
    assert KeysOf(es)[..n] == KeysOf(es[..n]);
    if i < n {
      SingleGroup(es[..n], i);
      assert KeysOf(es)[i] != KeysOf(es)[n];
    } else {
      NoGroup(es[..n], KeyOf(es[n]));
    }
  }

  lemma {:induction false} NoGroup(es: seq<Edit>, k: Key)
    requires forall i :: 0 <= i < |es| ==> KeysOf(es)[i] != k
    ensures Group(es, k) == []
  {
    if es != [] {
      var n := |es| - 1;
      assert KeysOf(es)[..n] == KeysOf(es[..n]);
      assert KeysOf(es)[n] == KeyOf(es[n]);
      NoGroup(es[..n], k);
    }
  }

  lemma DistinctIsCollapsed(es: seq<Edit>)
    requires Distinct(KeysOf(es))
    ensures Collapse(es) == es
  {
    DistinctKeys(es);
    forall i | 0 <= i < |es|
      ensures Collapse(es)[i] == es[i]
    {
      SingleGroup(es, i);
    }
  }

  // ----- normalizeProposals

  predicate IsNoOp(e: Edit) {
    (e.action == Replace || e.action == ReplaceAll) && e.target.Some? && e.target == e.newText
  }

  predicate ErasesBlank(ws: char -> bool, e: Edit) {
    && (e.action == Replace || e.action == ReplaceAll) && e.target.Some? && e.newText.Some?
    && HasBlank(ws, e.target.value)
    && Squeeze(ws, e.newText.value) == Squeeze(ws, DropBlanks(ws, e.target.value))
  }

  predicate Worth(ws: char -> bool, e: Edit) {
    !IsNoOp(e) && !ErasesBlank(ws, e)
  }

  function KeepWorth(ws: char -> bool, es: seq<Edit>): (r: seq<Edit>)
    ensures forall e :: e in r ==> e in es && Worth(ws, e)
    ensures forall e :: e in es && Worth(ws, e) ==> e in r
  {
    if es == [] then []
    else
      assert es == es[..|es| - 1] + [es[|es| - 1]];
      var p := KeepWorth(ws, es[..|es| - 1]);
      if Worth(ws, es[|es| - 1]) then p + [es[|es| - 1]] else p
  }

  function NormalizeProposals(ws: char -> bool, blocks: seq<Edit>): seq<Edit> {
    KeepWorth(ws, Collapse(SplitAll(ws, blocks)))
  }

  lemma LastIsNew(ks: seq<Key>, n: nat)
    requires Distinct(ks) && |ks| == n + 1
    ensures ks[n] !in ks[..n] && Distinct(ks[..n])
  {
    forall i | 0 <= i < n
      ensures ks[..n][i] != ks[n]
    {
    }
  }

  lemma {:induction false} KeepWorthIsDistinct(ws: char -> bool, es: seq<Edit>)
    requires Distinct(KeysOf(es))
    ensures Distinct(KeysOf(KeepWorth(ws, es)))
    ensures forall k :: k in KeysOf(KeepWorth(ws, es)) ==> k in KeysOf(es)
  {
    if es != [] {
      var n := |es| - 1;
      assert KeysOf(es) == KeysOf(es[..n]) + [KeyOf(es[n])];
      assert KeysOf(es)[..n] == KeysOf(es[..n]);
      KeepWorthIsDistinct(ws, es[..n]);
      var p := KeepWorth(ws, es[..n]);
      assert KeysOf(p + [es[n]]) == KeysOf(p) + [KeyOf(es[n])];
      LastIsNew(KeysOf(es), n);
    }
  }

  lemma {:induction false} KeepWorthOfWorth(ws: char -> bool, es: seq<Edit>)
    requires forall i :: 0 <= i < |es| ==> Worth(ws, es[i])
    ensures KeepWorth(ws, es) == es
  {
    if es != [] {
      KeepWorthOfWorth(ws, es[..|es| - 1]);
      assert es == es[..|es| - 1] + [es[|es| - 1]];
    }
  }

  lemma CollapseIsUnsplittable(ws: char -> bool, es: seq<Edit>)
    requires Unsplittable(ws, es)
    ensures Unsplittable(ws, Collapse(es))
  {
    forall i | 0 <= i < |Collapse(es)|
      ensures SplitEdit(ws, Collapse(es)[i]) == [Collapse(es)[i]]
    {
      GroupsAreFound(es, Keys(es)[i]);
      var first := Group(es, Keys(es)[i])[0];
      var j :| 0 <= j < |es| && es[j] == first;
    }
  }

  /** What comes out has pairwise distinct keys, is split, and changes something. */
  lemma NormalizedShape(ws: char -> bool, blocks: seq<Edit>)
    ensures var out := NormalizeProposals(ws, blocks);
            && Distinct(KeysOf(out)) && Unsplittable(ws, out)
            && (forall i :: 0 <= i < |out| ==> Worth(ws, out[i]))
  {
    var split := SplitAll(ws, blocks);
    SplitAllIsFixed(ws, blocks);
    CollapseIsUnsplittable(ws, split);
    CollapseFolds(split);
    var all := Collapse(split);
    assert KeysOf(all) == Keys(split);
    KeepWorthIsDistinct(ws, all);
    var out := KeepWorth(ws, all);
    forall i | 0 <= i < |out|
      ensures SplitEdit(ws, out[i]) == [out[i]] && Worth(ws, out[i])
    {
      assert out[i] in out;
      var j :| 0 <= j < |all| && all[j] == out[i];
    }
  }

  /** Safe to run more than once. */
  lemma NormalizeIsIdempotent(ws: char -> bool, blocks: seq<Edit>)
    ensures NormalizeProposals(ws, NormalizeProposals(ws, blocks)) == NormalizeProposals(ws, blocks)
  {
    NormalizedShape(ws, blocks);
    var out := NormalizeProposals(ws, blocks);
    SplitAllOfFixed(ws, out);
    DistinctIsCollapsed(out);
    KeepWorthOfWorth(ws, out);
  }
}
