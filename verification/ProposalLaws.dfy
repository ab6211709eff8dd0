// Which edits come out of normalising, told from their texts: an edit that erases
// a blank, found as the blank's characters stand in it, and the order kept.

module ProposalLaws {
  import opened Wrappers
  import opened Strings
  import opened VisibleText
  import opened Collections
  import opened Proposals

  // ----- Blanks

  /** The first n characters are a blank: brackets around white space, underscores,
      dots and hyphens, or a run of at least three underscores, as long as it goes. */
  ghost predicate BlankAhead(ws: char -> bool, s: string, n: nat) {
    && n <= |s|
    && ((n >= 2 && s[0] == '[' && s[n - 1] == ']'
         && forall k :: 1 <= k < n - 1 ==> ws(s[k]) || s[k] in {'_', '.', '-'})
        || (n >= 3 && (forall k :: 0 <= k < n ==> s[k] == '_') && (n < |s| ==> s[n] != '_')))
  }

  ghost predicate NoBlankAhead(ws: char -> bool, s: string) {
    forall n: nat :: n <= |s| ==> !BlankAhead(ws, s, n)
  }

  lemma RunIs(p: char -> bool, s: string, n: nat)
    requires n <= |s| && (forall k :: 0 <= k < n ==> p(s[k])) && (n < |s| ==> !p(s[n]))
    ensures RunLength(p, s) == n
  {
    RunThen(p, s[..n], s[n..]);
    assert s[..n] + s[n..] == s;
  }

  lemma BlankLengthIs(ws: char -> bool, s: string, n: nat)
    requires !ws(']') && BlankAhead(ws, s, n)
    ensures BlankLength(ws, s) == n
  {
    if s[0] == '[' {
      RunIs(ch => BlankFill(ws, ch), s[1..], n - 2);
    } else {
      RunIs(ch => ch == '_', s, n);
    }
  }

  /** The length found is that of a blank, and none is found only where there is none. */
  lemma BlankLengthFinds(ws: char -> bool, s: string)
    requires !ws(']')
    ensures BlankLength(ws, s) > 0 ==> BlankAhead(ws, s, BlankLength(ws, s))
    ensures BlankLength(ws, s) == 0 <==> NoBlankAhead(ws, s)
  {
    var n := BlankLength(ws, s);
    if n > 0 {
      FoundIsBlank(ws, s);
    }
    forall m: nat | m <= |s| && BlankAhead(ws, s, m)
      ensures m == n
    {
      BlankLengthIs(ws, s, m);
    }
  }

  lemma FoundIsBlank(ws: char -> bool, s: string)
    requires BlankLength(ws, s) > 0
    ensures BlankAhead(ws, s, BlankLength(ws, s))
  {
    var n := BlankLength(ws, s);
    if s[0] == '[' {
      forall k | 1 <= k < n - 1
        ensures ws(s[k]) || s[k] in {'_', '.', '-'}
      {
        assert BlankFill(ws, s[1..][k - 1]);
      }
    }
  }

  ghost predicate SomeBlank(ws: char -> bool, s: string) {
    exists i: nat, n: nat :: i <= |s| && BlankAhead(ws, s[i..], n)
  }

  lemma {:induction false} HasBlankIff(ws: char -> bool, s: string)
    requires !ws(']')
    ensures HasBlank(ws, s) <==> SomeBlank(ws, s)
    decreases |s|
  {
    if s == [] {
      assert forall i: nat, n: nat :: i <= 0 ==> !BlankAhead(ws, s[i..], n);
    } else {
      BlankLengthFinds(ws, s);
      HasBlankIff(ws, s[1..]);
      assert s[0..] == s;
      if i: nat, n: nat :| i <= |s| && BlankAhead(ws, s[i..], n) {
        if i > 0 {
          assert s[1..][i - 1..] == s[i..];
        }
      }
      if i: nat, n: nat :| i <= |s[1..]| && BlankAhead(ws, s[1..][i..], n) {
        assert s[1..][i..] == s[i + 1..];
      }
    }
  }

  /** s is the kept texts with the blanks between, each the first blank where it stands. */
  ghost predicate CutAtBlanks(ws: char -> bool, s: string, kept: seq<string>, blanks: seq<string>)
    decreases |kept|
  {
    && |kept| == |blanks| + 1 && kept[0] <= s
    && (forall j :: 0 <= j < |kept[0]| ==> NoBlankAhead(ws, s[j..]))
    && var rest := s[|kept[0]|..];
       if blanks == [] then rest == ""
       else
         BlankAhead(ws, rest, |blanks[0]|) && blanks[0] == rest[..|blanks[0]|]
         && CutAtBlanks(ws, rest[|blanks[0]|..], kept[1..], blanks[1..])
  }

  function Joined(texts: seq<string>): string {
    if texts == [] then "" else texts[0] + Joined(texts[1..])
  }

  /** What is left of a text without its blanks: the texts between them. */
  lemma {:induction false} DroppedAre(ws: char -> bool, s: string) returns (kept: seq<string>, blanks: seq<string>)
    requires !ws(']')
    ensures CutAtBlanks(ws, s, kept, blanks) && DropBlanks(ws, s) == Joined(kept)
    decreases |s|
  {
    if s == [] {
      kept, blanks := [""], [];
    } else {
      BlankLengthFinds(ws, s);
      var n := BlankLength(ws, s);
      if n > 0 {
        kept, blanks := DroppedAre(ws, s[n..]);
        BlankFirst(ws, s, n, kept, blanks);
        kept, blanks := [""] + kept, [s[..n]] + blanks;
      } else {
        kept, blanks := DroppedAre(ws, s[1..]);
        LetterFirst(ws, s, kept, blanks);
        kept := [[s[0]] + kept[0]] + kept[1..];
      }
    }
  }

  lemma BlankFirst(ws: char -> bool, s: string, n: nat, kept: seq<string>, blanks: seq<string>)
    requires BlankAhead(ws, s, n) && CutAtBlanks(ws, s[n..], kept, blanks)
    ensures CutAtBlanks(ws, s, [""] + kept, [s[..n]] + blanks) && Joined([""] + kept) == Joined(kept)
  {
    assert ([""] + kept)[1..] == kept && ([s[..n]] + blanks)[1..] == blanks;
    assert s[0..] == s;
  }

  lemma LetterFirst(ws: char -> bool, s: string, kept: seq<string>, blanks: seq<string>)
    requires s != [] && NoBlankAhead(ws, s) && CutAtBlanks(ws, s[1..], kept, blanks)
    ensures var kept' := [[s[0]] + kept[0]] + kept[1..];
            CutAtBlanks(ws, s, kept', blanks) && Joined(kept') == [s[0]] + Joined(kept)
  {
    var first, tail := [s[0]] + kept[0], kept[1..];
    assert kept == [kept[0]] + tail;
    NoneAheadEarlier(ws, s, kept[0]);
    LongerFirst(ws, s, kept[0], first, tail, blanks);
    Grouped([s[0]], kept[0], Joined(tail));
    assert ([first] + tail)[1..] == tail;
  }

  lemma Grouped(a: string, b: string, c: string)
    ensures a + b + c == a + (b + c)
  {
  }

  lemma NoneAheadEarlier(ws: char -> bool, s: string, t: string)
    requires s != [] && NoBlankAhead(ws, s) && |t| < |s|
    requires forall j :: 0 <= j < |t| ==> NoBlankAhead(ws, s[1..][j..])
    ensures forall j :: 0 <= j < |t| + 1 ==> NoBlankAhead(ws, s[j..])
  {
    forall j | 0 <= j < |t| + 1
      ensures NoBlankAhead(ws, s[j..])
    {
      if j > 0 {
        assert s[1..][j - 1..] == s[j..];
      } else {
        assert s[0..] == s;
      }
    }
  }

  lemma LongerFirst(
    ws: char -> bool, s: string, t: string, first: string, tail: seq<string>, blanks: seq<string>)
    requires s != [] && first == [s[0]] + t && CutAtBlanks(ws, s[1..], [t] + tail, blanks)
    requires forall j :: 0 <= j < |first| ==> NoBlankAhead(ws, s[j..])
    ensures CutAtBlanks(ws, s, [first] + tail, blanks)
  {
    assert ([t] + tail)[1..] == tail && ([first] + tail)[1..] == tail;
    assert s[1..][|t|..] == s[|first|..];
  }

  /** An edit erases a blank exactly when it replaces a text that holds one by
      the words that are left of it without its blanks. */
  lemma ErasesBlankIff(ws: char -> bool, e: Edit) returns (kept: seq<string>, blanks: seq<string>)
    requires !ws(']')
    ensures e.target.Some? ==> CutAtBlanks(ws, e.target.value, kept, blanks)
    ensures ErasesBlank(ws, e) <==>
            && (e.action == Replace || e.action == ReplaceAll) && e.target.Some? && e.newText.Some?
            && SomeBlank(ws, e.target.value)
            && Spaced(Words(ws, e.newText.value)) == Spaced(Words(ws, Joined(kept)))
  {
    kept, blanks := [], [];
    if e.target.Some? {
      kept, blanks := DroppedAre(ws, e.target.value);
      HasBlankIff(ws, e.target.value);
      SqueezeIsSpaced(ws, DropBlanks(ws, e.target.value));
    }
    if e.newText.Some? {
      SqueezeIsSpaced(ws, e.newText.value);
    }
  }

  // ----- What comes out

  /** The edit changes something, and does not only erase a blank. */
  predicate Changes(ws: char -> bool, e: Edit) {
    && !((e.action == Replace || e.action == ReplaceAll) && e.target.Some? && e.newText == e.target)
    && !ErasesBlank(ws, e)
  }

  lemma ChangesIff(ws: char -> bool, e: Edit)
    ensures Worth(ws, e) <==> Changes(ws, e)
  {
  }

  function Worthy(ws: char -> bool, es: seq<Edit>): (flags: seq<bool>)
    ensures |flags| == |es| && forall i :: 0 <= i < |es| ==> flags[i] == Changes(ws, es[i])
  {
    seq(|es|, i requires 0 <= i < |es| => Changes(ws, es[i]))
  }

  lemma KeepNext(ws: char -> bool, es: seq<Edit>)
    requires es != []
    ensures var n := |es| - 1;
            KeepWorth(ws, es) ==
            if Changes(ws, es[n]) then KeepWorth(ws, es[..n]) + [es[n]] else KeepWorth(ws, es[..n])
  {
    ChangesIff(ws, es[|es| - 1]);
  }

  lemma WorthyNext(ws: char -> bool, es: seq<Edit>)
    requires es != []
    ensures var n := |es| - 1;
            Where(Worthy(ws, es)) == Where(Worthy(ws, es[..n])) + if Changes(ws, es[n]) then [n] else []
  {
    var n := |es| - 1;
    assert Worthy(ws, es)[..n] == Worthy(ws, es[..n]);
  }

  /** picked are the edits of es at `at`. */
  predicate EditsAt(es: seq<Edit>, at: seq<nat>, picked: seq<Edit>) {
    |picked| == |at| && forall i :: 0 <= i < |at| ==> at[i] < |es| && picked[i] == es[at[i]]
  }

  lemma EditsOn(es: seq<Edit>, at: seq<nat>, picked: seq<Edit>)
    requires es != [] && EditsAt(es[..|es| - 1], at, picked)
    ensures EditsAt(es, at, picked) && EditsAt(es, at + [|es| - 1], picked + [es[|es| - 1]])
    ensures at + [] == at
  {
  }

  lemma {:induction false} WorthyAreKept(ws: char -> bool, es: seq<Edit>)
    ensures EditsAt(es, Where(Worthy(ws, es)), KeepWorth(ws, es))
  {
    if es != [] {
      var init := es[..|es| - 1];
      WorthyAreKept(ws, init);
      KeepNext(ws, es);
      WorthyNext(ws, es);
      EditsOn(es, Where(Worthy(ws, init)), KeepWorth(ws, init));
    }
  }

  /** Exactly the edits that change something come out, of the blocks split into
      lines and folded by key, in that order. */
  lemma NormalizedAre(ws: char -> bool, blocks: seq<Edit>)
    ensures var folded := Collapse(SplitAll(ws, blocks));
            var out := NormalizeProposals(ws, blocks);
            EditsAt(folded, Where(Worthy(ws, folded)), out)
  {
    WorthyAreKept(ws, Collapse(SplitAll(ws, blocks)));
  }

  // ----- Field lines

  /** s is a, the first blank in it, and b. */
  ghost predicate FirstBlankIn(ws: char -> bool, s: string, a: string, n: nat, b: string) {
    && |a| + n <= |s| && a == s[..|a|] && b == s[|a| + n..] && BlankAhead(ws, s[|a|..], n)
    && forall j :: 0 <= j < |a| ==> NoBlankAhead(ws, s[j..])
  }

  /** Without its first blank a text is what stands before and behind it. */
  lemma {:induction false} FirstBlankDropped(ws: char -> bool, s: string) returns (a: string, n: nat, b: string)
    requires !ws(']')
    ensures HasBlank(ws, s) ==> FirstBlankIn(ws, s, a, n, b) && DropFirstBlank(ws, s) == a + b
    ensures !HasBlank(ws, s) ==> DropFirstBlank(ws, s) == s
    decreases |s|
  {
    a, n, b := "", 0, s;
    if s != [] {
      BlankLengthFinds(ws, s);
      n := BlankLength(ws, s);
      if n > 0 {
        b := s[n..];
        assert s[0..] == s;
      } else {
        a, n, b := FirstBlankDropped(ws, s[1..]);
        if HasBlank(ws, s[1..]) {
          OneLater(ws, s, a, n, b);
        }
        a := [s[0]] + a;
      }
    }
  }

  lemma OneLater(ws: char -> bool, s: string, a: string, n: nat, b: string)
    requires s != [] && NoBlankAhead(ws, s) && FirstBlankIn(ws, s[1..], a, n, b)
    ensures FirstBlankIn(ws, s, [s[0]] + a, n, b) && [s[0]] + (a + b) == [s[0]] + a + b
  {
    assert s[1..][|a|..] == s[|a| + 1..] && s[1..][|a| + n..] == s[|a| + 1 + n..];
    NoneAheadEarlier(ws, s, a);
  }

  /** A labeled blank is a line with a blank and something else. */
  lemma LabeledIff(ws: char -> bool, line: string) returns (a: string, n: nat, b: string)
    requires !ws(']')
    ensures HasBlank(ws, line) ==> FirstBlankIn(ws, line, a, n, b)
    ensures IsLabeledBlank(ws, line) <==> SomeBlank(ws, line) && Trim(ws, a + b) != ""
  {
    HasBlankIff(ws, line);
    a, n, b := FirstBlankDropped(ws, line);
  }

  lemma FieldLineIff(ws: char -> bool, line: string)
    requires !ws(']')
    ensures IsFieldLine(ws, line) <==> ':' in line || SomeBlank(ws, line)
  {
    HasBlankIff(ws, line);
  }

  /** The k-th is the only pair that differs once trimmed. */
  ghost predicate OnlyAt(ws: char -> bool, s: seq<string>, t: seq<string>, k: nat) {
    && |s| == |t| && k < |s| && Trim(ws, s[k]) != Trim(ws, t[k])
    && forall j :: 0 <= j < |s| && j != k ==> Trim(ws, s[j]) == Trim(ws, t[j])
  }

  lemma ChangedNext(ws: char -> bool, s: seq<string>, t: seq<string>)
    requires |s| == |t| > 0
    ensures var n := |s| - 1;
            var l := (Trim(ws, s[n]), Trim(ws, t[n]));
            Changed(ws, s, t) == Changed(ws, s[..n], t[..n]) + if l.0 == l.1 then [] else [l]
  {
  }

  lemma {:induction false} OneChanged(ws: char -> bool, s: seq<string>, t: seq<string>, k: nat)
    requires OnlyAt(ws, s, t, k)
    ensures Changed(ws, s, t) == [(Trim(ws, s[k]), Trim(ws, t[k]))]
  {
    var n := |s| - 1;
    ChangedNext(ws, s, t);
    if k < n {
      OneChanged(ws, s[..n], t[..n], k);
    } else {
      NoneChanged(ws, s[..n], t[..n]);
    }
  }

  lemma {:induction false} NoneChanged(ws: char -> bool, s: seq<string>, t: seq<string>)
    requires |s| == |t| && forall j :: 0 <= j < |s| ==> Trim(ws, s[j]) == Trim(ws, t[j])
    ensures Changed(ws, s, t) == []
  {
    if s != [] {
      ChangedNext(ws, s, t);
      NoneChanged(ws, s[..|s| - 1], t[..|s| - 1]);
    }
  }

  lemma OneIsOnly(ws: char -> bool, s: seq<string>, t: seq<string>) returns (k: nat)
    requires |s| == |t| && |Changed(ws, s, t)| == 1
    ensures OnlyAt(ws, s, t, k)
  {
    var at := ChangedAre(ws, s, t);
    k := at[0];
    assert k in at;
    forall j: nat | j < |s| && j != k
      ensures Trim(ws, s[j]) == Trim(ws, t[j])
    {
      assert j !in at;
    }
  }

  function Columns(s: string): seq<string> {
    SplitAt(ch => ch == '\t', s)
  }

  lemma ColumnsAre(s: string)
    ensures Tabs(s) == Columns(s)
  {
    SameColumns(ch => ch == '\t', ch => ch == '\t', s);
  }

  lemma {:induction false} SameColumns(p: char -> bool, q: char -> bool, s: string)
    requires forall ch :: p(ch) <==> q(ch)
    ensures SplitAt(p, s) == SplitAt(q, s)
  {
    if s != [] {
      SameColumns(p, q, s[1..]);
    }
  }

  /** A changed line is cut down to its one changed column, when both texts have columns and one differs. */
  lemma ReducedTo(ws: char -> bool, p: (string, string), k: nat)
    requires '\t' in p.0 && '\t' in p.1 && OnlyAt(ws, Columns(p.0), Columns(p.1), k)
    ensures ReduceTabSegment(ws, p) == (Trim(ws, Columns(p.0)[k]), Trim(ws, Columns(p.1)[k]))
  {
    ColumnsAre(p.0);
    ColumnsAre(p.1);
    OneChanged(ws, Tabs(p.0), Tabs(p.1), k);
  }

  /** And otherwise stays whole. */
  lemma NotReduced(ws: char -> bool, p: (string, string)) returns (k: nat)
    ensures ReduceTabSegment(ws, p) == p || ('\t' in p.0 && '\t' in p.1 && OnlyAt(ws, Columns(p.0), Columns(p.1), k))
  {
    ColumnsAre(p.0);
    ColumnsAre(p.1);
    k := 0;
    if |Tabs(p.0)| == |Tabs(p.1)| && |Changed(ws, Tabs(p.0), Tabs(p.1))| == 1 {
      k := OneIsOnly(ws, Tabs(p.0), Tabs(p.1));
    }
  }

  // ----- Which edits are split, and which are the same

  /** s is the lines with a line feed, or carriage return and line feed, behind each but the last. */
  ghost predicate IsLines(s: string, ls: seq<string>)
    decreases |ls|
  {
    && ls != [] && '\n' !in ls[0] && ls[0] <= s
    && var rest := s[|ls[0]|..];
       if |ls| == 1 then rest == ""
       else
         || ("\r\n" <= rest && IsLines(rest[2..], ls[1..]))
         || ("\n" <= rest && (ls[0] == "" || ls[0][|ls[0]| - 1] != '\r') && IsLines(rest[1..], ls[1..]))
  }

  lemma {:induction false} LinesAre(s: string)
    ensures IsLines(s, SplitLines(s))
    decreases |s|
  {
    if s == [] {
    } else if s[0] == '\n' {
      LinesAre(s[1..]);
      assert SplitLines(s)[1..] == SplitLines(s[1..]);
      assert s[0..] == s;
    } else if s[0] == '\r' && |s| > 1 && s[1] == '\n' {
      LinesAre(s[2..]);
      assert SplitLines(s)[1..] == SplitLines(s[2..]);
      assert s[0..] == s && s[..2] == "\r\n";
    } else {
      LinesAre(s[1..]);
      LineLonger(s, SplitLines(s[1..]));
    }
  }

  lemma LineLonger(s: string, ls: seq<string>)
    requires s != [] && s[0] != '\n' && !(s[0] == '\r' && |s| > 1 && s[1] == '\n') && IsLines(s[1..], ls)
    ensures IsLines(s, [[s[0]] + ls[0]] + ls[1..])
  {
    var first := [s[0]] + ls[0];
    assert ([first] + ls[1..])[1..] == ls[1..];
    assert s[1..][|ls[0]|..] == s[|first|..];
  }

  predicate SomeText(o: Option<string>) {
    o.Some? && o.value != ""
  }

  /** Line k, as cut down to its one changed column or whole, is a field line. */
  ghost predicate IsField(ws: char -> bool, t: seq<string>, n: seq<string>, k: nat)
    requires |t| == |n|
  {
    k < |t| && IsFieldLine(ws, ReduceTabSegment(ws, (Trim(ws, t[k]), Trim(ws, n[k]))).0)
  }

  /** An edit is split exactly when it replaces lines by as many lines, two at
      least of them changed, each of those a field line, as cut down. */
  lemma SplitsIff(ws: char -> bool, p: Edit) returns (at: seq<nat>)
    ensures SomeText(p.target) && SomeText(p.newText) ==>
              var t, n := SplitLines(p.target.value), SplitLines(p.newText.value);
              |t| == |n| ==> forall k: nat :: k in at <==> ChangesLine(ws, t, n, k)
    ensures Splits(ws, p) <==>
            p.action == Replace && SomeText(p.target) && SomeText(p.newText) &&
            var t, n := SplitLines(p.target.value), SplitLines(p.newText.value);
            2 <= |t| == |n| && |at| >= 2 && forall i :: 0 <= i < |at| ==> IsField(ws, t, n, at[i])
  {
    at := [];
    if SomeText(p.target) && SomeText(p.newText) {
      var t, n := SplitLines(p.target.value), SplitLines(p.newText.value);
      if |t| == |n| {
        at := ChangedAre(ws, t, n);
        FieldsAre(ws, t, n, at);
      }
    }
  }

  lemma FieldsAre(ws: char -> bool, t: seq<string>, n: seq<string>, at: seq<nat>)
    requires |t| == |n| && |at| == |Changed(ws, t, n)|
    requires forall i :: 0 <= i < |at| ==>
               at[i] < |t| && Changed(ws, t, n)[i] == (Trim(ws, t[at[i]]), Trim(ws, n[at[i]]))
    ensures AllFields(ws, Diffs(ws, t, n)) <==> forall i :: 0 <= i < |at| ==> IsField(ws, t, n, at[i])
  {
    var ds := Diffs(ws, t, n);
    forall i | 0 <= i < |at|
      ensures ds[i] == ReduceTabSegment(ws, (Trim(ws, t[at[i]]), Trim(ws, n[at[i]])))
    {
      assert ds[i] == ReduceTabSegment(ws, Changed(ws, t, n)[i]);
    }
  }

  /** A line's edit replaces its old text by its new one, everywhere when that fills a labeled blank. */
  lemma FieldEditIs(ws: char -> bool, d: (string, string), rationale: Option<string>)
    ensures var e := FieldEdit(ws, d, rationale);
            && e.target == Some(d.0) && e.newText == Some(d.1) && e.rationale == rationale
            && e.action == (if IsLabeledBlank(ws, d.0) then ReplaceAll else Replace)
            && e.anchor == e.position == e.warning == None
  {
  }

  /** Edits are folded together exactly when target, new text, anchor and position
      are the same, a missing one as good as an empty one. */
  lemma SameKeyIff(a: Edit, b: Edit)
    ensures KeyOf(a) == KeyOf(b) <==>
            && SameText(a.target, b.target) && SameText(a.newText, b.newText)
            && SameText(a.anchor, b.anchor) && SameText(a.position, b.position)
  {
  }

  predicate SameText(a: Option<string>, b: Option<string>) {
    a == b || (!SomeText(a) && !SomeText(b))
  }
}
