// A stored review made safe to recall (review_recall.py): findings the document
// proves filled are dropped line by line, and the signature gate is reconciled
// with what is left.

module ReviewRecall {
  import opened Wrappers
  import opened Strings
  import opened Collections
  import Placeholders

  /** str.splitlines, the line shapes and the tag the regular expressions recognise,
      matching up to layout, and lower case. */
  datatype Markdown = Markdown(
    lines: string -> seq<string>,
    hasSourceTag: string -> bool,
    isHeading: string -> bool,
    isGateHeading: string -> bool,
    isKeyFindings: string -> bool,
    isStatus: string -> bool,
    isSpace: char -> bool,
    norm: string -> string,
    lower: string -> string)

  // ----- Which lines are dropped

  /** Whether the last heading of the lines opens the signature gate. */
  function GateOpen(md: Markdown, lines: seq<string>): bool {
    if lines == [] then false
    else if md.isHeading(lines[|lines| - 1]) then md.isGateHeading(lines[|lines| - 1])
    else GateOpen(md, lines[..|lines| - 1])
  }

  function References(md: Markdown, candidates: seq<string>, line: string): (r: seq<string>)
    ensures forall c :: c in r <==> c in candidates && Contains(md.norm(line), md.norm(c))
  {
    if candidates == [] then []
    else
      var last := candidates[|candidates| - 1];
      var init := candidates[..|candidates| - 1];
      assert candidates == init + [last];
      var p := References(md, init, line);
      if Contains(md.norm(line), md.norm(last)) then p + [last] else p
  }

  /** c is part of a longer reference of the same line. */
  predicate Outdone(md: Markdown, refs: seq<string>, c: string) {
    exists other :: other in refs && md.norm(c) != md.norm(other) && Contains(md.norm(other), md.norm(c))
  }

  function MostSpecific(md: Markdown, refs: seq<string>, among: seq<string>): (r: seq<string>)
    ensures forall c :: c in r <==> c in refs && !Outdone(md, among, c)
  {
    if refs == [] then []
    else
      var last := refs[|refs| - 1];
      var init := refs[..|refs| - 1];
      assert refs == init + [last];
      var p := MostSpecific(md, init, among);
      if Outdone(md, among, last) then p else p + [last]
  }

  /** The placeholders a line stands for: the most specific of those it refers to. */
  function Specific(md: Markdown, candidates: seq<string>, line: string): seq<string> {
    var refs := References(md, candidates, line);
    MostSpecific(md, refs, refs)
  }

  predicate Filled(md: Markdown, normDoc: string, c: string) {
    !Contains(normDoc, md.norm(c))
  }

  predicate AllFilled(md: Markdown, normDoc: string, cs: seq<string>) {
    forall c :: c in cs ==> Filled(md, normDoc, c)
  }

  /** Line i goes: no heading, not in the gate, and every placeholder it stands for is filled. */
  predicate DroppedAt(md: Markdown, candidates: seq<string>, normDoc: string, lines: seq<string>, i: nat)
    requires i < |lines|
  {
    var specific := Specific(md, candidates, lines[i]);
    && !md.isHeading(lines[i]) && !GateOpen(md, lines[..i])
    && specific != [] && AllFilled(md, normDoc, specific)
  }

  /** The placeholders line i is dropped for; none when it stays. */
  function GoneAt(md: Markdown, candidates: seq<string>, normDoc: string, lines: seq<string>, i: nat): seq<string>
    requires i < |lines|
  {
    if DroppedAt(md, candidates, normDoc, lines, i) then Specific(md, candidates, lines[i]) else []
  }

  function Gone(md: Markdown, candidates: seq<string>, normDoc: string, lines: seq<string>): (gone: seq<seq<string>>)
    ensures |gone| == |lines|
    ensures forall i :: 0 <= i < |lines| ==> gone[i] == GoneAt(md, candidates, normDoc, lines, i)
  {
    seq(|lines|, i requires 0 <= i < |lines| => GoneAt(md, candidates, normDoc, lines, i))
  }

  /** The lines that go for nothing. */
  function Untouched(lines: seq<string>, gone: seq<seq<string>>): seq<string>
    requires |gone| == |lines|
  {
    if lines == [] then []
    else
      var n := |lines| - 1;
      Untouched(lines[..n], gone[..n]) + if gone[n] == [] then [lines[n]] else []
  }

  function Kept(md: Markdown, candidates: seq<string>, normDoc: string, lines: seq<string>): seq<string> {
    Untouched(lines, Gone(md, candidates, normDoc, lines))
  }

  /** New ones appended in order, each once. */
  function AddNew(seen: seq<string>, cs: seq<string>): (r: seq<string>)
    ensures forall c :: c in r <==> c in seen || c in cs
    ensures seen <= r
  {
    if cs == [] then seen
    else
      var p := AddNew(seen, cs[..|cs| - 1]);
      assert cs == cs[..|cs| - 1] + [cs[|cs| - 1]];
      if cs[|cs| - 1] in p then p else p + [cs[|cs| - 1]]
  }

  function AddAll(gone: seq<seq<string>>): seq<string> {
    if gone == [] then [] else AddNew(AddAll(gone[..|gone| - 1]), gone[|gone| - 1])
  }

  function DroppedTokens(md: Markdown, candidates: seq<string>, normDoc: string, lines: seq<string>): seq<string> {
    AddAll(Gone(md, candidates, normDoc, lines))
  }

  method DropFilledLines(md: Markdown, candidates: seq<string>, normDoc: string, lines: seq<string>)
    returns (kept: seq<string>, dropped: seq<string>)
    ensures kept == Kept(md, candidates, normDoc, lines)
    ensures dropped == DroppedTokens(md, candidates, normDoc, lines)
  {
    kept, dropped := [], [];
    var inGate := false;
    ghost var gone := Gone(md, candidates, normDoc, lines);
    for i := 0 to |lines|
      invariant inGate == GateOpen(md, lines[..i])
      invariant kept == Untouched(lines[..i], gone[..i])
      invariant dropped == AddAll(gone[..i])
    {
      var line := lines[i];
      NextLine(lines, gone, i);
      NextHeading(md, lines, i);
      assert gone[i] == GoneAt(md, candidates, normDoc, lines, i);
      if md.isHeading(line) {
        inGate := md.isGateHeading(line);
        kept := kept + [line];
        continue;
      }
      if inGate {
        kept := kept + [line];
        continue;
      }
      var specific := Specific(md, candidates, line);
      if specific != [] && AllFilled(md, normDoc, specific) {
        dropped := AddTokens(dropped, specific);
        continue;
      }
      kept := kept + [line];
    }
    assert lines[..|lines|] == lines && gone[..|lines|] == gone;
  }

  lemma NextLine(lines: seq<string>, gone: seq<seq<string>>, i: nat)
    requires i < |lines| == |gone|
    ensures Untouched(lines[..i + 1], gone[..i + 1]) ==
            if gone[i] == [] then Untouched(lines[..i], gone[..i]) + [lines[i]] else Untouched(lines[..i], gone[..i])
    ensures AddAll(gone[..i + 1]) == if gone[i] == [] then AddAll(gone[..i]) else AddNew(AddAll(gone[..i]), gone[i])
  {
    assert lines[..i + 1][..i] == lines[..i] && gone[..i + 1][..i] == gone[..i];
  }

  lemma NextHeading(md: Markdown, lines: seq<string>, i: nat)
    requires i < |lines|
    ensures GateOpen(md, lines[..i + 1]) ==
            if md.isHeading(lines[i]) then md.isGateHeading(lines[i]) else GateOpen(md, lines[..i])
  {
    assert lines[..i + 1][..i] == lines[..i];
  }

  method AddTokens(seen: seq<string>, cs: seq<string>) returns (r: seq<string>)
    ensures r == AddNew(seen, cs)
  {
    r := seen;
    for i := 0 to |cs|
      invariant r == AddNew(seen, cs[..i])
    {
      assert cs[..i + 1][..i] == cs[..i];
      if cs[i] !in r {
        r := r + [cs[i]];
      }
    }
    assert cs[..|cs|] == cs;
  }

  // ----- What survives

  /** Which lines go for nothing. */
  function Stays(gone: seq<seq<string>>): (flags: seq<bool>)
    ensures |flags| == |gone| && forall i :: 0 <= i < |gone| ==> flags[i] == (gone[i] == [])
  {
    seq(|gone|, i requires 0 <= i < |gone| => gone[i] == [])
  }

  lemma {:induction false} UntouchedAt(lines: seq<string>, gone: seq<seq<string>>)
    requires |gone| == |lines|
    ensures |Untouched(lines, gone)| == |Where(Stays(gone))|
    ensures forall i :: 0 <= i < |Where(Stays(gone))| ==> Untouched(lines, gone)[i] == lines[Where(Stays(gone))[i]]
  {
    if lines != [] {
      var n := |lines| - 1;
      UntouchedAt(lines[..n], gone[..n]);
      assert Stays(gone)[..n] == Stays(gone[..n]);
    }
  }

  /** Every line survives word for word and in order, unless it is dropped. */
  lemma KeptAreTheRest(md: Markdown, candidates: seq<string>, normDoc: string, lines: seq<string>)
    returns (at: seq<nat>)
    ensures |at| == |Kept(md, candidates, normDoc, lines)| && Ascending(at)
    ensures forall i :: 0 <= i < |at| ==> at[i] < |lines| && Kept(md, candidates, normDoc, lines)[i] == lines[at[i]]
    ensures forall k: nat :: k < |lines| ==> (k in at <==> !DroppedAt(md, candidates, normDoc, lines, k))
  {
    var gone := Gone(md, candidates, normDoc, lines);
    at := Where(Stays(gone));
    UntouchedAt(lines, gone);
    forall k: nat | k < |lines|
      ensures k in at <==> !DroppedAt(md, candidates, normDoc, lines, k)
    {
      WhereOf(Stays(gone), k);
    }
  }

  /** Of the references with the longest text none is outdone. */
  lemma {:induction false} LongestIsSpecific(md: Markdown, refs: seq<string>) returns (c: string)
    requires refs != []
    ensures c in refs && forall d :: d in refs ==> |md.norm(d)| <= |md.norm(c)|
  {
    var last := refs[|refs| - 1];
    assert refs == refs[..|refs| - 1] + [last];
    if |refs| == 1 {
      c := last;
    } else {
      c := LongestIsSpecific(md, refs[..|refs| - 1]);
      if |md.norm(c)| < |md.norm(last)| {
        c := last;
      }
    }
  }

  lemma LongestIsNoPart(s: string, t: string)
    requires |s| <= |t|
    ensures !(Contains(s, t) && s != t)
  {
    if Contains(s, t) {
      var k: nat :| k <= |s| && StandsAt(s, t, k);
      assert s[0..|s|] == s;
    }
  }

  /** A line that refers to a placeholder stands for at least one. */
  lemma SomeIsSpecific(md: Markdown, candidates: seq<string>, line: string)
    requires References(md, candidates, line) != []
    ensures Specific(md, candidates, line) != []
  {
    var refs := References(md, candidates, line);
    var c := LongestIsSpecific(md, refs);
    forall other | other in refs
      ensures !(Contains(md.norm(other), md.norm(c)) && md.norm(other) != md.norm(c))
    {
      LongestIsNoPart(md.norm(other), md.norm(c));
    }
    assert c in Specific(md, candidates, line);
  }

  /** An ordinary line is dropped whenever it refers to placeholders and all of them are filled. */
  lemma AllFilledIsDropped(md: Markdown, candidates: seq<string>, normDoc: string, lines: seq<string>, i: nat)
    requires i < |lines| && !md.isHeading(lines[i]) && !GateOpen(md, lines[..i])
    requires References(md, candidates, lines[i]) != []
    requires AllFilled(md, normDoc, References(md, candidates, lines[i]))
    ensures DroppedAt(md, candidates, normDoc, lines, i)
  {
    SomeIsSpecific(md, candidates, lines[i]);
  }

  /** A dropped line is ordinary, refers to a filled placeholder, and every live
      one it refers to is part of a longer reference on the line. */
  lemma DroppedMeansFilled(md: Markdown, candidates: seq<string>, normDoc: string, lines: seq<string>, i: nat)
    requires i < |lines| && DroppedAt(md, candidates, normDoc, lines, i)
    ensures !md.isHeading(lines[i]) && !GateOpen(md, lines[..i])
    ensures exists c :: c in References(md, candidates, lines[i]) && Filled(md, normDoc, c)
    ensures forall c :: c in References(md, candidates, lines[i]) && !Filled(md, normDoc, c)
                        ==> Outdone(md, References(md, candidates, lines[i]), c)
  {
    var specific := Specific(md, candidates, lines[i]);
    assert specific[0] in specific;
  }

  /** A live reference that is no part of a longer one. */
  ghost predicate SomeStandsForItself(md: Markdown, normDoc: string, refs: seq<string>) {
    exists c :: c in refs && !Filled(md, normDoc, c) && !Outdone(md, refs, c)
  }

  /** An ordinary line is dropped exactly when all its references are filled, if
      and only if a live one among them, if any, stands for itself. */
  lemma DropsWhenAllFilledIff(md: Markdown, candidates: seq<string>, normDoc: string, lines: seq<string>, i: nat)
    requires i < |lines| && !md.isHeading(lines[i]) && !GateOpen(md, lines[..i])
    requires References(md, candidates, lines[i]) != []
    ensures var refs := References(md, candidates, lines[i]);
            (DroppedAt(md, candidates, normDoc, lines, i) <==> AllFilled(md, normDoc, refs))
            <==> (AllFilled(md, normDoc, refs) || SomeStandsForItself(md, normDoc, refs))
  {
    SomeIsSpecific(md, candidates, lines[i]);
    var refs := References(md, candidates, lines[i]);
    if AllFilled(md, normDoc, refs) {
      AllFilledIsDropped(md, candidates, normDoc, lines, i);
    }
  }

  lemma ContainsPart(s: string, t: string, u: string)
    requires Contains(s, t) && Contains(t, u)
    ensures Contains(s, u)
  {
    var k: nat :| k <= |s| && StandsAt(s, t, k);
    var j: nat :| j <= |t| && StandsAt(t, u, j);
    assert forall x :: 0 <= x < |u| ==> u[x] == t[j..j + |u|][x] == s[k..k + |t|][j + x] == s[k + j + x];
    assert s[k + j..k + j + |u|] == u;
    assert StandsAt(s, u, k + j);
  }

  /** A document that still holds `live` drops the line. */
  ghost predicate CanGoWith(md: Markdown, candidates: seq<string>, live: string, lines: seq<string>, i: nat)
    requires i < |lines|
  {
    exists normDoc :: Contains(normDoc, live) && DroppedAt(md, candidates, normDoc, lines, i)
  }

  /** A line can go while a text is live exactly when it is ordinary, refers to
      a placeholder, and none that it stands for is part of that text. */
  lemma CanGoWithIff(md: Markdown, candidates: seq<string>, live: string, lines: seq<string>, i: nat)
    requires i < |lines|
    ensures CanGoWith(md, candidates, live, lines, i) <==>
            && !md.isHeading(lines[i]) && !GateOpen(md, lines[..i])
            && References(md, candidates, lines[i]) != []
            && forall c :: c in Specific(md, candidates, lines[i]) ==> !Contains(live, md.norm(c))
  {
    var specific := Specific(md, candidates, lines[i]);
    if References(md, candidates, lines[i]) != [] {
      SomeIsSpecific(md, candidates, lines[i]);
    }
    forall normDoc, c | Contains(normDoc, live) && Contains(live, md.norm(c))
      ensures Contains(normDoc, md.norm(c))
    {
      ContainsPart(normDoc, live, md.norm(c));
    }
    HoldsItself(live);
    if CanGoWith(md, candidates, live, lines, i) {
      var normDoc :| Contains(normDoc, live) && DroppedAt(md, candidates, normDoc, lines, i);
      assert specific[0] in specific;
      assert specific[0] in References(md, candidates, lines[i]);
    }
    if DroppedAt(md, candidates, live, lines, i) {
      assert CanGoWith(md, candidates, live, lines, i);
    }
  }

  lemma HoldsItself(s: string)
    ensures Contains(s, s)
  {
    assert StandsAt(s, s, 0);
  }

  function Shapes(md: Markdown): Placeholders.Shapes {
    Placeholders.Shapes(md.isSpace, md.hasSourceTag)
  }

  const LITERAL := Markdown(
    s => [s], s => false,
    s => s != [] && s[0] == '#', s => s == "# No Signature Checklist",
    s => s == "# Key Findings", s => s == "Overall status:",
    c => c == ' ', s => s, s => s)

  /** A line that holds a filled placeholder goes, whatever part of it is live. */
  lemma LongerReferenceDrops(md: Markdown, line: string, whole: string, part: string, normDoc: string)
    requires !md.isHeading(line) && md.norm(part) != md.norm(whole)
    requires Contains(md.norm(line), md.norm(whole)) && Contains(md.norm(whole), md.norm(part))
    requires !Contains(normDoc, md.norm(whole))
    ensures part in References(md, [whole, part], line)
    ensures DroppedAt(md, [whole, part], normDoc, [line], 0)
  {
    var candidates := [whole, part];
    assert candidates[0] in candidates && candidates[1] in candidates;
    ContainsPart(md.norm(line), md.norm(whole), md.norm(part));
    var refs := References(md, candidates, line);
    assert part in refs && whole in refs;
    assert Outdone(md, refs, part);
    PartIsShorter(md.norm(whole), md.norm(part));
    LongestIsNoPart(md.norm(part), md.norm(whole));
    assert whole in Specific(md, candidates, line);
    assert !GateOpen(md, [line][..0]);
  }

  lemma PartIsShorter(s: string, t: string)
    requires Contains(s, t)
    ensures |t| <= |s|
  {
  }

  /** A line can go although a placeholder it shows is live: of the review
      "`L: [N]`" the field and the label are candidates, "[N]" is still in the
      document, and "L: [N]" is not. */
  lemma LiveLabelCanGo(review: string, whole: string, part: string, doc: string)
    requires review == "`L: [N]`" && whole == "L: [N]" && part == "[N]" && doc == "T: [N]"
    ensures Placeholders.Candidates(Shapes(LITERAL), review) == [whole, part]
    ensures Contains(doc, part) && part in References(LITERAL, [whole, part], review)
    ensures LITERAL.lines(review) == [review] && DroppedAt(LITERAL, [whole, part], doc, [review], 0)
  {
    LiveLabelCandidates(review, whole, part);
    FieldHolds(review, whole, part);
    StillLabelled(doc, whole, part);
    assert review[0] == '`';
    LongerReferenceDrops(LITERAL, review, whole, part, doc);
  }

  lemma FieldHolds(review: string, whole: string, part: string)
    requires review == "`L: [N]`" && whole == "L: [N]" && part == "[N]"
    ensures Contains(review, whole) && Contains(whole, part)
  {
    HeldAt(review, whole, 1);
    HeldAt(whole, part, 3);
  }

  lemma StillLabelled(doc: string, whole: string, part: string)
    requires whole == "L: [N]" && part == "[N]" && doc == "T: [N]"
    ensures Contains(doc, part) && !Contains(doc, whole)
  {
    HeldAt(doc, part, 3);
    assert whole[0] == 'L' && 'L' !in doc;
    NotHeldAt(doc, whole, 0);
  }

  lemma HeldAt(s: string, t: string, k: nat)
    requires StandsAt(s, t, k)
    ensures Contains(s, t)
  {
  }

  lemma LiveLabelCandidates(review: string, whole: string, part: string)
    requires review == "`L: [N]`" && whole == "L: [N]" && part == "[N]"
    ensures Placeholders.Candidates(Shapes(LITERAL), review) == [whole, part]
  {
    assert part == Placeholders.Bracketed("N");
    assert whole == "L: " + Placeholders.Bracketed("N");
    assert review == "`" + (whole + "`");
    Placeholders.FieldAndLabel(Shapes(LITERAL), "L: ", "N", review);
  }

  /** Nor is a span of several markers safe: of "`[N] [_]`" only the label is a
      candidate, and once it is filled the line goes with its blank still live. */
  lemma BundledSpanCanGo(review: string, span: string, token: string, blank: string, doc: string)
    requires review == "`[N] [_]`" && span == "[N] [_]" && token == "[N]" && blank == "[_]" && doc == "T: [_]"
    ensures Placeholders.MarkerCount(span) == 2 && Placeholders.Candidates(Shapes(LITERAL), review) == [token]
    ensures Contains(span, blank) && Contains(review, span) && Contains(doc, blank)
    ensures LITERAL.lines(review) == [review] && DroppedAt(LITERAL, [token], doc, [review], 0)
  {
    BundleCandidates(review, span, token);
    BundleHolds(review, span, token, blank);
    StillBlank(doc, token, blank);
    assert review[0] == '`';
    OnlyReferenceDrops(LITERAL, review, token, doc);
  }

  lemma BundleHolds(review: string, span: string, token: string, blank: string)
    requires review == "`[N] [_]`" && span == "[N] [_]" && token == "[N]" && blank == "[_]"
    ensures Contains(span, blank) && Contains(review, span) && Contains(review, token)
  {
    HeldAt(span, blank, 4);
    HeldAt(review, span, 1);
    HeldAt(review, token, 1);
  }

  lemma StillBlank(doc: string, token: string, blank: string)
    requires token == "[N]" && blank == "[_]" && doc == "T: [_]"
    ensures Contains(doc, blank) && !Contains(doc, token)
  {
    HeldAt(doc, blank, 3);
    assert token[1] == 'N' && 'N' !in doc;
    NotHeldAt(doc, token, 1);
  }

  lemma NotHeldAt(s: string, t: string, j: nat)
    requires j < |t| && t[j] !in s
    ensures !Contains(s, t)
  {
    forall k: nat | k <= |s|
      ensures !StandsAt(s, t, k)
    {
      assert k + |t| <= |s| ==> s[k..k + |t|][j] == s[k + j];
    }
  }

  lemma BundleCandidates(review: string, span: string, token: string)
    requires review == "`[N] [_]`" && span == "[N] [_]" && token == "[N]"
    ensures Placeholders.MarkerCount(span) == 2
    ensures Placeholders.Candidates(Shapes(LITERAL), review) == [token]
  {
    assert token == Placeholders.Bracketed("N");
    assert span == Placeholders.Bundle("N", "_");
    assert review == "`" + (span + "`");
    Placeholders.BundleMarkers("N", "_");
    Placeholders.BundledLabel(Shapes(LITERAL), "N", "_", review);
  }

  lemma OnlyReferenceDrops(md: Markdown, line: string, c: string, normDoc: string)
    requires !md.isHeading(line) && Contains(md.norm(line), md.norm(c)) && !Contains(normDoc, md.norm(c))
    ensures DroppedAt(md, [c], normDoc, [line], 0)
  {
    assert [c][0] in [c];
    assert c in References(md, [c], line);
    SomeIsSpecific(md, [c], line);
    assert !GateOpen(md, [line][..0]);
  }

  // ----- The signature gate

  /** First index from i on whose line satisfies p, or the number of lines. */
  function FirstFrom(p: string -> bool, lines: seq<string>, i: nat): (k: nat)
    requires i <= |lines|
    ensures i <= k <= |lines|
    ensures forall j :: i <= j < k ==> !p(lines[j])
    ensures k < |lines| ==> p(lines[k])
    decreases |lines| - i
  {
    if i < |lines| && !p(lines[i]) then FirstFrom(p, lines, i + 1) else i
  }

  method FindFrom(p: string -> bool, lines: seq<string>, i: nat) returns (k: nat)
    requires i <= |lines|
    ensures k == FirstFrom(p, lines, i)
  {
    k := i;
    while k < |lines| && !p(lines[k])
      invariant i <= k <= |lines| && FirstFrom(p, lines, k) == FirstFrom(p, lines, i)
    {
      k := k + 1;
    }
  }

  function StripBars(md: Markdown, row: string): string {
    Strings.Trim(ch => ch == '|', Strings.Trim(md.isSpace, row))
  }

  /** The trimmed cells of a table row. */
  function Cells(md: Markdown, row: string): seq<string> {
    var parts := SplitAt(ch => ch == '|', StripBars(md, row));
    seq(|parts|, i requires 0 <= i < |parts| => Strings.Trim(md.isSpace, parts[i]))
  }

  predicate IsTableRow(md: Markdown, line: string) {
    "|" <= Strings.Trim(md.isSpace, line)
  }

  function TableRows(md: Markdown, lines: seq<string>): seq<string> {
    if lines == [] then []
    else
      var p := TableRows(md, lines[..|lines| - 1]);
      if IsTableRow(md, lines[|lines| - 1]) then p + [lines[|lines| - 1]] else p
  }

  function DropMarks(s: string): string {
    if s == [] then []
    else (if s[0] == '*' || s[0] == '`' then [] else [s[0]]) + DropMarks(s[1..])
  }

  /** A rating cell without its emphasis marks. */
  function Rating(md: Markdown, cell: string): string {
    Strings.Trim(ch => ch == '_', Strings.Trim(md.isSpace, DropMarks(md.lower(cell))))
  }

  const BLOCKER_RATINGS: set<string> := {"red", "missing context", "missing-context", "missing_context"}

  /** The row is rated Red or Missing Context. */
  predicate IsBlocker(md: Markdown, row: string, rating: nat) {
    var cells := Cells(md, row);
    rating < |cells| && Rating(md, cells[rating]) in BLOCKER_RATINGS
  }

  function CountIf(p: string -> bool, rows: seq<string>): nat {
    if rows == [] then 0 else CountIf(p, rows[..|rows| - 1]) + (if p(rows[|rows| - 1]) then 1 else 0)
  }

  function BlockerCount(md: Markdown, rows: seq<string>, rating: nat): nat {
    CountIf(row => IsBlocker(md, row, rating), rows)
  }

  predicate IsRatingHeader(md: Markdown, cell: string) {
    md.lower(cell) == "rating" || md.lower(cell) == "risk"
  }

  /** The rows of the Key Findings table, its header first; empty when there is none. */
  function FindingRows(md: Markdown, lines: seq<string>): seq<string> {
    var start := FirstFrom(md.isKeyFindings, lines, 0);
    if start == |lines| then []
    else TableRows(md, lines[start + 1..FirstFrom(md.isHeading, lines, start + 1)])
  }

  /** Findings rated Red or Missing Context; unknown when there is no table or no rating column. */
  function SurvivingBlockers(md: Markdown, lines: seq<string>): Option<nat> {
    RatedBlockers(md, FindingRows(md, lines))
  }

  function RatedBlockers(md: Markdown, rows: seq<string>): Option<nat> {
    if rows == [] then None
    else
      var header := Cells(md, rows[0]);
      var rating := FirstFrom(cell => IsRatingHeader(md, cell), header, 0);
      if rating == |header| then None else Some(BlockerCount(md, rows[1..], rating))
  }

  method SurvivingBlockerCount(md: Markdown, lines: seq<string>) returns (r: Option<nat>)
    ensures r == SurvivingBlockers(md, lines)
  {
    var rows := FindRows(md, lines);
    r := RatedBlockerCount(md, rows);
  }

  method FindRows(md: Markdown, lines: seq<string>) returns (rows: seq<string>)
    ensures rows == FindingRows(md, lines)
  {
    var start := FindFrom(md.isKeyFindings, lines, 0);
    if start == |lines| {
      return [];
    }
    var stop := FindFrom(md.isHeading, lines, start + 1);
    rows := TableRowsOf(md, lines[start + 1..stop]);
  }

  method RatedBlockerCount(md: Markdown, rows: seq<string>) returns (r: Option<nat>)
    ensures r == RatedBlockers(md, rows)
  {
    if rows == [] {
      return None;
    }
    var header := Cells(md, rows[0]);
    var rating := FindFrom(cell => IsRatingHeader(md, cell), header, 0);
    if rating == |header| {
      return None;
    }
    var count := CountBlockers(md, rows[1..], rating);
    r := Some(count);
  }

  method TableRowsOf(md: Markdown, section: seq<string>) returns (rows: seq<string>)
    ensures rows == TableRows(md, section)
  {
    rows := [];
    for i := 0 to |section|
      invariant rows == TableRows(md, section[..i])
    {
      assert section[..i + 1][..i] == section[..i];
      if IsTableRow(md, section[i]) {
        rows := rows + [section[i]];
      }
    }
    assert section[..|section|] == section;
  }

  method CountBlockers(md: Markdown, rows: seq<string>, rating: nat) returns (count: nat)
    ensures count == BlockerCount(md, rows, rating)
  {
    count := 0;
    ghost var p := row => IsBlocker(md, row, rating);
    for i := 0 to |rows|
      invariant count == CountIf(p, rows[..i])
    {
      assert rows[..i + 1][..i] == rows[..i];
      var cells := Cells(md, rows[i]);
      if |cells| <= rating {
        continue;
      }
      if Rating(md, cells[rating]) in BLOCKER_RATINGS {
        count := count + 1;
      }
    }
    assert rows[..|rows|] == rows;
  }

  lemma {:induction false} NoneCounted(p: string -> bool, rows: seq<string>)
    ensures CountIf(p, rows) == 0 <==> forall i :: 0 <= i < |rows| ==> !p(rows[i])
  {
    if rows != [] {
      NoneCounted(p, rows[..|rows| - 1]);
    }
  }

  /** Zero means no finding of the table is rated Red or Missing Context. */
  lemma NoBlockersLeft(md: Markdown, rows: seq<string>, rating: nat)
    ensures BlockerCount(md, rows, rating) == 0 <==> forall i :: 0 <= i < |rows| ==> !IsBlocker(md, rows[i], rating)
  {
    NoneCounted(row => IsBlocker(md, row, rating), rows);
  }

  /** The sentences the reconciliation writes. */
  datatype Wording = Wording(neutralStatus: string, gateNote: string -> string, reviewNote: (string, string) -> string)

  const WORDING := Wording(
    "Overall status: PENDING RE-REVIEW \U{2014} the placeholder blockers recorded here were "
    + "filled after this review and no other blockers remain; re-review to confirm "
    + "signature readiness. (Do not treat as approved for signature.)",
    cited =>
      "> **Reconciled:** placeholder blocker(s) cited in this gate \U{2014} " + cited
      + " \U{2014} were filled in the current document after this review; treat them as "
      + "resolved. The current document governs the gate.",
    (count, dropped) =>
      "> **Auto-reconciled:** " + count + " placeholder(s) flagged in the "
      + "prior review were filled in the document afterward and have been removed from "
      + "the recalled findings: " + dropped + ".")

  function Quoted(tokens: seq<string>): string {
    if tokens == [] then ""
    else if |tokens| == 1 then "`" + tokens[0] + "`"
    else Quoted(tokens[..|tokens| - 1]) + ", `" + tokens[|tokens| - 1] + "`"
  }

  function Cited(md: Markdown, tokens: seq<string>, normBody: string): seq<string> {
    if tokens == [] then []
    else
      var p := Cited(md, tokens[..|tokens| - 1], normBody);
      if Contains(normBody, md.norm(tokens[|tokens| - 1])) then p + [tokens[|tokens| - 1]] else p
  }

  /** The gate's section: from its heading to the next one. */
  function GateStart(md: Markdown, lines: seq<string>): nat {
    FirstFrom(md.isGateHeading, lines, 0)
  }

  function GateEnd(md: Markdown, lines: seq<string>): nat
    requires GateStart(md, lines) < |lines|
  {
    FirstFrom(md.isHeading, lines, GateStart(md, lines) + 1)
  }

  function CitedInGate(md: Markdown, lines: seq<string>, dropped: seq<string>): seq<string>
    requires GateStart(md, lines) < |lines|
  {
    Cited(md, dropped, md.norm(JoinLines(lines[GateStart(md, lines) + 1..GateEnd(md, lines)])))
  }

  /** The gate's first status line replaced, when there is one. */
  function Neutralized(md: Markdown, w: Wording, lines: seq<string>): seq<string>
    requires GateStart(md, lines) < |lines|
  {
    var k := FirstFrom(md.isStatus, lines, GateStart(md, lines) + 1);
    if k < GateEnd(md, lines) then lines[k := w.neutralStatus] else lines
  }

  /** The lines with the gate's status neutralised, when no blocker survives. */
  function GateBase(md: Markdown, w: Wording, lines: seq<string>): (r: seq<string>)
    requires GateStart(md, lines) < |lines|
    ensures |r| == |lines|
  {
    if SurvivingBlockers(md, lines) == Some(0) then Neutralized(md, w, lines) else lines
  }

  function WithNote(lines: seq<string>, g: nat, note: string): seq<string>
    requires g < |lines|
  {
    lines[..g + 1] + [note] + lines[g + 1..]
  }

  function GateVerdict(md: Markdown, w: Wording, lines: seq<string>, dropped: seq<string>): seq<string> {
    var g := GateStart(md, lines);
    if dropped == [] || g == |lines| || CitedInGate(md, lines, dropped) == [] then lines
    else WithNote(GateBase(md, w, lines), g, w.gateNote(Quoted(CitedInGate(md, lines, dropped))))
  }

  method ReconcileGateVerdict(
      md: Markdown, w: Wording, lines: seq<string>, dropped: seq<string>)
      returns (out: seq<string>)
    ensures out == GateVerdict(md, w, lines, dropped)
  {
    if dropped == [] {
      return lines;
    }
    var start := FindFrom(md.isGateHeading, lines, 0);
    if start == |lines| {
      return lines;
    }
    var end := FindFrom(md.isHeading, lines, start + 1);
    var cited := Cited(md, dropped, md.norm(JoinLines(lines[start + 1..end])));
    if cited == [] {
      return lines;
    }
    out := WriteGate(md, w, lines, start, end, w.gateNote(Quoted(cited)));
  }

  method WriteGate(
      md: Markdown, w: Wording, lines: seq<string>, start: nat, end: nat, note: string)
      returns (out: seq<string>)
    requires start < |lines| && start == GateStart(md, lines) && end == GateEnd(md, lines)
    ensures out == WithNote(GateBase(md, w, lines), start, note)
  {
    var blockers := SurvivingBlockerCount(md, lines);
    var section := lines[start..end];
    PutBack(lines, start, end);
    if blockers == Some(0) {
      section := NeutralizeStatus(md, w, lines, start, end);
    }
    NoteInserted(lines, start, end, section, note);
    section := [section[0], note] + section[1..];
    out := lines[..start] + section + lines[end..];
  }

  method NeutralizeStatus(
      md: Markdown, w: Wording, lines: seq<string>, start: nat, end: nat)
      returns (section: seq<string>)
    requires start < |lines| && start == GateStart(md, lines) && end == GateEnd(md, lines)
    ensures |section| == end - start > 0
    ensures lines[..start] + section + lines[end..] == Neutralized(md, w, lines)
  {
    section := lines[start..end];
    var k := 1;
    while k < |section| && !md.isStatus(section[k])
      invariant 1 <= k <= |section| && forall j :: 1 <= j < k ==> !md.isStatus(section[j])
    {
      k := k + 1;
    }
    StatusIn(md, lines, start, end, k);
    PutBack(lines, start, end);
    if k < |section| {
      PutBackChanged(lines, start, end, k, w.neutralStatus);
      section := section[k := w.neutralStatus];
    }
  }

  lemma PutBack(lines: seq<string>, start: nat, end: nat)
    requires start <= end <= |lines|
    ensures lines[..start] + lines[start..end] + lines[end..] == lines
  {
  }

  lemma PutBackChanged(lines: seq<string>, start: nat, end: nat, k: nat, line: string)
    requires start <= end <= |lines| && k < end - start
    ensures lines[..start] + lines[start..end][k := line] + lines[end..] == lines[start + k := line]
  {
  }

  /** A section with a note after its first line, put back, is the whole with the note there. */
  lemma NoteInserted(lines: seq<string>, start: nat, end: nat, section: seq<string>, note: string)
    requires start < end <= |lines| && |section| == end - start
    ensures lines[..start] + ([section[0], note] + section[1..]) + lines[end..]
            == WithNote(lines[..start] + section + lines[end..], start, note)
  {
  }

  lemma StatusIn(md: Markdown, lines: seq<string>, start: nat, end: nat, k: nat)
    requires start < end <= |lines| && 1 <= k <= end - start
    requires forall j :: 1 <= j < k ==> !md.isStatus(lines[start..end][j])
    requires k < end - start ==> md.isStatus(lines[start + k])
    ensures var f := FirstFrom(md.isStatus, lines, start + 1);
            if k < end - start then f == start + k else f >= end
  {
    forall j | start + 1 <= j < start + k
      ensures !md.isStatus(lines[j])
    {
      assert lines[start..end][j - start] == lines[j];
    }
  }

  /** Line i of the gate may be rewritten: its first status line, and no Red or
      Missing Context finding left in a Key Findings table that can be read. */
  predicate MayNeutralize(md: Markdown, lines: seq<string>, i: nat)
    requires GateStart(md, lines) < |lines|
  {
    && i < GateEnd(md, lines) && i == FirstFrom(md.isStatus, lines, GateStart(md, lines) + 1)
    && SurvivingBlockers(md, lines) == Some(0)
  }

  lemma NeutralizedChangesOne(md: Markdown, w: Wording, lines: seq<string>, i: nat)
    requires GateStart(md, lines) < |lines| && i < |lines| && Neutralized(md, w, lines)[i] != lines[i]
    ensures GateStart(md, lines) < i < GateEnd(md, lines)
    ensures i == FirstFrom(md.isStatus, lines, GateStart(md, lines) + 1)
    ensures Neutralized(md, w, lines)[i] == w.neutralStatus && md.isStatus(lines[i])
  {
  }

  lemma BaseChangesOne(md: Markdown, w: Wording, lines: seq<string>, i: nat)
    requires GateStart(md, lines) < |lines| && i < |lines|
    ensures GateBase(md, w, lines)[i] == lines[i] ||
            (GateStart(md, lines) < i && GateBase(md, w, lines)[i] == w.neutralStatus
             && md.isStatus(lines[i]) && MayNeutralize(md, lines, i))
  {
    if GateBase(md, w, lines)[i] != lines[i] {
      NeutralizedChangesOne(md, w, lines, i);
    }
  }

  lemma NotePlaced(base: seq<string>, g: nat, note: string)
    requires g < |base|
    ensures var out := WithNote(base, g, note);
            && |out| == |base| + 1 && out[..g + 1] == base[..g + 1]
            && forall i :: g < i < |base| ==> out[i + 1] == base[i]
  {
  }

  /** Of the lines it is given the gate pass only ever adds one note, and rewrites
      one status line of the gate when it may: all else stays as it was. */
  lemma GateKeepsTheRest(md: Markdown, w: Wording, lines: seq<string>, dropped: seq<string>)
    requires GateVerdict(md, w, lines, dropped) != lines
    ensures var out := GateVerdict(md, w, lines, dropped);
            var g := GateStart(md, lines);
            && g < |lines| && md.isGateHeading(lines[g]) && |out| == |lines| + 1
            && out[..g + 1] == lines[..g + 1]
            && (forall i :: g < i < |lines| && out[i + 1] != lines[i] ==>
                  out[i + 1] == w.neutralStatus && md.isStatus(lines[i]) && MayNeutralize(md, lines, i))
  {
    var out := GateVerdict(md, w, lines, dropped);
    var g := GateStart(md, lines);
    var base := GateBase(md, w, lines);
    NotePlaced(base, g, w.gateNote(Quoted(CitedInGate(md, lines, dropped))));
    BaseBegins(md, w, lines);
    forall i | g < i < |lines| && out[i + 1] != lines[i]
      ensures out[i + 1] == w.neutralStatus && md.isStatus(lines[i]) && MayNeutralize(md, lines, i)
    {
      assert out[i + 1] == base[i];
      BaseChangesOne(md, w, lines, i);
    }
  }

  lemma BaseBegins(md: Markdown, w: Wording, lines: seq<string>)
    requires GateStart(md, lines) < |lines|
    ensures GateBase(md, w, lines)[..GateStart(md, lines) + 1] == lines[..GateStart(md, lines) + 1]
  {
    var base, g := GateBase(md, w, lines), GateStart(md, lines);
    forall i | 0 <= i <= g
      ensures base[i] == lines[i]
    {
      BaseChangesOne(md, w, lines, i);
    }
  }

  // ----- _reconcile_review_with_doc

  function FilledOnes(md: Markdown, candidates: seq<string>, normDoc: string): seq<string> {
    if candidates == [] then []
    else
      var p := FilledOnes(md, candidates[..|candidates| - 1], normDoc);
      var c := candidates[|candidates| - 1];
      if Filled(md, normDoc, c) then p + [c] else p
  }

  /** The reconciled review and the tokens whose lines went. */
  function ReconciledLines(
      md: Markdown, w: Wording, count: nat -> string, lines: seq<string>, doc: string, candidates: seq<string>)
    : (seq<string>, seq<string>)
  {
    var normDoc := md.norm(doc);
    var dropped := DroppedTokens(md, candidates, normDoc, lines);
    if doc == "" || FilledOnes(md, candidates, normDoc) == [] || dropped == [] then (lines, [])
    else
      var kept := Kept(md, candidates, normDoc, lines);
      ([w.reviewNote(count(|dropped|), Quoted(dropped)), ""] + GateVerdict(md, w, kept, dropped), dropped)
  }

  /** What the review, with the placeholders it quotes, becomes. */
  function Reconciled(md: Markdown, w: Wording, count: nat -> string, review: string, doc: string)
    : (seq<string>, seq<string>)
  {
    ReconciledLines(md, w, count, md.lines(review), doc, Placeholders.Candidates(Shapes(md), review))
  }

  method ReconcileReviewWithDoc(md: Markdown, count: nat -> string, review: string, doc: string)
    returns (out: seq<string>, tokens: seq<string>)
    ensures (out, tokens) == Reconciled(md, WORDING, count, review, doc)
  {
    out, tokens := Reconcile(md, WORDING, count, review, doc);
  }

  method Reconcile(md: Markdown, w: Wording, count: nat -> string, review: string, doc: string)
    returns (out: seq<string>, tokens: seq<string>)
    ensures (out, tokens) == Reconciled(md, w, count, review, doc)
  {
    if review == "" || doc == "" {
      return md.lines(review), [];
    }
    var candidates := Placeholders.PlaceholderCandidates(Shapes(md), review);
    if candidates == [] {
      return md.lines(review), [];
    }
    out, tokens := ReconcileLines(md, w, count, md.lines(review), doc, candidates);
  }

  method ReconcileLines(
    md: Markdown, w: Wording, count: nat -> string, lines: seq<string>, doc: string, candidates: seq<string>)
    returns (out: seq<string>, tokens: seq<string>)
    requires doc != ""
    ensures (out, tokens) == ReconciledLines(md, w, count, lines, doc, candidates)
  {
    var normDoc := md.norm(doc);
    if FilledOnes(md, candidates, normDoc) == [] {
      return lines, [];
    }
    var kept, dropped := DropFilledLines(md, candidates, normDoc, lines);
    if dropped == [] {
      return lines, [];
    }
    var body := ReconcileGateVerdict(md, w, kept, dropped);
    out, tokens := [w.reviewNote(count(|dropped|), Quoted(dropped)), ""] + body, dropped;
  }

  /** Where line i of what is kept stands in the gate pass's output. */
  function GatePlace(md: Markdown, w: Wording, kept: seq<string>, dropped: seq<string>, i: nat): nat {
    if GateVerdict(md, w, kept, dropped) != kept && i > GateStart(md, kept) then i + 1 else i
  }

  /** There line i stands word for word, unless it is the status line that may be rewritten. */
  ghost predicate StandsAfterGate(md: Markdown, w: Wording, kept: seq<string>, dropped: seq<string>, i: nat)
    requires i < |kept|
  {
    var body := GateVerdict(md, w, kept, dropped);
    var k := GatePlace(md, w, kept, dropped, i);
    && k < |body|
    && (body[k] == kept[i] ||
        (body[k] == w.neutralStatus && md.isStatus(kept[i]) && GateStart(md, kept) < |kept|
            && MayNeutralize(md, kept, i)))
  }

  lemma GateKeepsEach(md: Markdown, w: Wording, kept: seq<string>, dropped: seq<string>, i: nat)
    requires i < |kept|
    ensures StandsAfterGate(md, w, kept, dropped, i)
    ensures |kept| <= |GateVerdict(md, w, kept, dropped)| <= |kept| + 1
  {
    var body := GateVerdict(md, w, kept, dropped);
    if body != kept {
      GateKeepsTheRest(md, w, kept, dropped);
      var g := GateStart(md, kept);
      if i <= g {
        assert body[..g + 1][i] == kept[..g + 1][i];
      }
    }
  }

  /** Kept line i of the review stands in the reconciled one at `place`. */
  ghost predicate StandsIn(
    md: Markdown, w: Wording, out: seq<string>, kept: seq<string>, i: nat, line: string, place: nat)
    requires i < |kept|
  {
    && kept[i] == line && 2 <= place < |out|
    && (out[place] == line ||
        (out[place] == w.neutralStatus && md.isStatus(line) && GateStart(md, kept) < |kept|
            && MayNeutralize(md, kept, i)))
  }

  /** Where the kept lines stand in the reconciled review. */
  function Into(md: Markdown, w: Wording, kept: seq<string>, dropped: seq<string>): (into: seq<nat>)
    ensures |into| == |kept| && Ascending(into)
    ensures forall i :: 0 <= i < |kept| ==> into[i] == GatePlace(md, w, kept, dropped, i) + 2
  {
    seq(|kept|, i requires 0 <= i < |kept| => GatePlace(md, w, kept, dropped, i) + 2)
  }

  /** The kept lines, from the places `at` of the review, stand at `into` in the reconciled one. */
  ghost predicate AllStandIn(
    md: Markdown, w: Wording, out: seq<string>, kept: seq<string>, lines: seq<string>, at: seq<nat>, into: seq<nat>)
  {
    && |at| == |into| == |kept| && Ascending(at) && Ascending(into)
    && forall i :: 0 <= i < |at| ==> at[i] < |lines| && StandsIn(md, w, out, kept, i, lines[at[i]], into[i])
  }

  lemma BehindTheNote(
    md: Markdown, w: Wording, note: string, kept: seq<string>, dropped: seq<string>, i: nat, line: string)
    requires i < |kept| && kept[i] == line
    ensures StandsIn(md, w, [note, ""] + GateVerdict(md, w, kept, dropped), kept, i, line,
                     GatePlace(md, w, kept, dropped, i) + 2)
  {
    GateKeepsEach(md, w, kept, dropped, i);
  }

  /** When something was dropped: the reconciled review holds the lines that were
      not, in order and word for word but for the gate's status line, behind its
      note and a blank line, and beside them at most the gate's note. */
  lemma OutputHoldsTheRest(
    md: Markdown, w: Wording, count: nat -> string, lines: seq<string>, doc: string, candidates: seq<string>)
    returns (at: seq<nat>, into: seq<nat>)
    requires ReconciledLines(md, w, count, lines, doc, candidates).1 != []
    ensures var out := ReconciledLines(md, w, count, lines, doc, candidates).0;
            && AllStandIn(md, w, out, Kept(md, candidates, md.norm(doc), lines), lines, at, into)
            && |into| + 2 <= |out| <= |into| + 3
    ensures forall k: nat :: k < |lines| ==> (k in at <==> !DroppedAt(md, candidates, md.norm(doc), lines, k))
  {
    var normDoc := md.norm(doc);
    var dropped := DroppedTokens(md, candidates, normDoc, lines);
    at := KeptAreTheRest(md, candidates, normDoc, lines);
    into := AllBehindTheNote(
      md, w, w.reviewNote(count(|dropped|), Quoted(dropped)), Kept(md, candidates, normDoc, lines), dropped, lines, at);
  }

  lemma AllBehindTheNote(
    md: Markdown, w: Wording, note: string, kept: seq<string>, dropped: seq<string>, lines: seq<string>, at: seq<nat>)
    returns (into: seq<nat>)
    requires |at| == |kept| && Ascending(at)
    requires forall i :: 0 <= i < |at| ==> at[i] < |lines| && kept[i] == lines[at[i]]
    ensures var out := [note, ""] + GateVerdict(md, w, kept, dropped);
            AllStandIn(md, w, out, kept, lines, at, into) && |into| + 2 <= |out| <= |into| + 3
  {
    into := Into(md, w, kept, dropped);
    forall i | 0 <= i < |at|
      ensures StandsIn(md, w, [note, ""] + GateVerdict(md, w, kept, dropped), kept, i, lines[at[i]], into[i])
    {
      BehindTheNote(md, w, note, kept, dropped, i, lines[at[i]]);
    }
    GateAddsAtMostOne(md, w, kept, dropped);
  }

  lemma GateAddsAtMostOne(md: Markdown, w: Wording, kept: seq<string>, dropped: seq<string>)
    ensures |kept| <= |GateVerdict(md, w, kept, dropped)| <= |kept| + 1
  {
  }

  lemma {:induction false} FilledIsListed(md: Markdown, candidates: seq<string>, normDoc: string, c: string)
    ensures c in FilledOnes(md, candidates, normDoc) <==> c in candidates && Filled(md, normDoc, c)
  {
    if candidates != [] {
      var n := |candidates| - 1;
      FilledIsListed(md, candidates[..n], normDoc, c);
      assert candidates == candidates[..n] + [candidates[n]];
    }
  }

  /** When no token is named, the review comes back as it was; with a document to go by, no line of it was to go. */
  lemma UnnamedIsUnchanged(
    md: Markdown, w: Wording, count: nat -> string, lines: seq<string>, doc: string, candidates: seq<string>)
    requires ReconciledLines(md, w, count, lines, doc, candidates).1 == []
    ensures ReconciledLines(md, w, count, lines, doc, candidates).0 == lines
    ensures doc != "" ==> forall i: nat :: i < |lines| ==> !DroppedAt(md, candidates, md.norm(doc), lines, i)
  {
    var normDoc := md.norm(doc);
    if FilledOnes(md, candidates, normDoc) == [] {
      forall i: nat | i < |lines|
        ensures !DroppedAt(md, candidates, normDoc, lines, i)
      {
        NoneFilledNoneDropped(md, candidates, normDoc, lines, i);
      }
    } else if doc != "" {
      NothingNamedNothingGone(md, candidates, normDoc, lines);
    }
  }

  lemma NoneFilledNoneDropped(md: Markdown, candidates: seq<string>, normDoc: string, lines: seq<string>, i: nat)
    requires FilledOnes(md, candidates, normDoc) == [] && i < |lines|
    ensures !DroppedAt(md, candidates, normDoc, lines, i)
  {
    var specific := Specific(md, candidates, lines[i]);
    if specific != [] {
      FilledIsListed(md, candidates, normDoc, specific[0]);
      assert specific[0] in specific;
    }
  }

  ghost predicate InSome(gone: seq<seq<string>>, c: string) {
    exists i :: 0 <= i < |gone| && c in gone[i]
  }

  lemma InLastOrBefore(gone: seq<seq<string>>, c: string, n: nat)
    requires |gone| == n + 1
    ensures InSome(gone, c) <==> InSome(gone[..n], c) || c in gone[n]
  {
    if i :| 0 <= i < n && c in gone[..n][i] {
      assert c in gone[i];
    }
    if i :| 0 <= i < n && c in gone[i] {
      assert c in gone[..n][i];
    }
  }

  lemma {:induction false} AddedFromSome(gone: seq<seq<string>>, c: string)
    ensures c in AddAll(gone) <==> InSome(gone, c)
  {
    if gone != [] {
      AddedFromSome(gone[..|gone| - 1], c);
      InLastOrBefore(gone, c, |gone| - 1);
    }
  }

  /** Line i is dropped and stands for c. */
  predicate GoneFor(md: Markdown, candidates: seq<string>, normDoc: string, lines: seq<string>, i: nat, c: string) {
    i < |lines| && DroppedAt(md, candidates, normDoc, lines, i) && c in Specific(md, candidates, lines[i])
  }

  /** No line is dropped without its token being named, and nothing is named but what went. */
  lemma TokensAreOfDroppedLines(md: Markdown, candidates: seq<string>, normDoc: string, lines: seq<string>, c: string)
    ensures c in DroppedTokens(md, candidates, normDoc, lines) <==>
            exists i: nat :: GoneFor(md, candidates, normDoc, lines, i, c)
  {
    var gone := Gone(md, candidates, normDoc, lines);
    AddedFromSome(gone, c);
    forall i: nat | i < |lines|
      ensures c in gone[i] <==> GoneFor(md, candidates, normDoc, lines, i, c)
    {
    }
  }

  /** So when no token is named, no line went: the review comes back as it was. */
  lemma NothingNamedNothingGone(md: Markdown, candidates: seq<string>, normDoc: string, lines: seq<string>)
    requires DroppedTokens(md, candidates, normDoc, lines) == []
    ensures forall i: nat :: i < |lines| ==> !DroppedAt(md, candidates, normDoc, lines, i)
  {
    forall i: nat | i < |lines|
      ensures !DroppedAt(md, candidates, normDoc, lines, i)
    {
      if DroppedAt(md, candidates, normDoc, lines, i) {
        var c := Specific(md, candidates, lines[i])[0];
        assert GoneFor(md, candidates, normDoc, lines, i, c);
        TokensAreOfDroppedLines(md, candidates, normDoc, lines, c);
      }
    }
  }
}
