// What recalling a stored review comes to, told from its lines: which lines go,
// which findings count as blockers, and what is written into the gate.

module ReviewLaws {
  import opened Wrappers
  import opened Strings
  import opened Collections
  import opened ReviewRecall

  // ----- Which lines go

  /** Line i stands under the gate's heading. */
  ghost predicate UnderGate(md: Markdown, lines: seq<string>, i: nat)
    requires i <= |lines|
  {
    exists h :: 0 <= h < i && md.isHeading(lines[h]) && md.isGateHeading(lines[h]) && NoHeading(md, lines, h + 1, i)
  }

  ghost predicate NoHeading(md: Markdown, lines: seq<string>, lo: nat, hi: nat)
    requires hi <= |lines|
  {
    forall k :: lo <= k < hi ==> !md.isHeading(lines[k])
  }

  lemma {:induction false} UnderGateIff(md: Markdown, lines: seq<string>, i: nat)
    requires i <= |lines|
    ensures GateOpen(md, lines[..i]) <==> UnderGate(md, lines, i)
  {
    if i > 0 {
      UnderGateIff(md, lines, i - 1);
      NextHeading(md, lines, i - 1);
      if md.isHeading(lines[i - 1]) {
        assert NoHeading(md, lines, i, i);
      } else if h :| 0 <= h < i - 1 && md.isHeading(lines[h]) && md.isGateHeading(lines[h])
                     && NoHeading(md, lines, h + 1, i - 1) {
        assert NoHeading(md, lines, h + 1, i);
      }
      if h :| 0 <= h < i - 1 && md.isHeading(lines[h]) && md.isGateHeading(lines[h]) && NoHeading(md, lines, h + 1, i) {
        assert NoHeading(md, lines, h + 1, i - 1);
      }
    }
  }

  /** The line shows c, as both are matched. */
  predicate Shows(md: Markdown, line: string, c: string) {
    Contains(md.norm(line), md.norm(c))
  }

  /** The line shows a placeholder of which c is a proper part. */
  ghost predicate ShownWithin(md: Markdown, candidates: seq<string>, line: string, c: string) {
    exists other :: other in candidates && Shows(md, line, other)
                    && md.norm(other) != md.norm(c) && Contains(md.norm(other), md.norm(c))
  }

  /** The placeholders a line is judged by: those it shows, but for proper parts of another it shows. */
  lemma SpecificIs(md: Markdown, candidates: seq<string>, line: string, c: string)
    ensures c in Specific(md, candidates, line) <==>
            c in candidates && Shows(md, line, c) && !ShownWithin(md, candidates, line, c)
  {
  }

  /** A line goes exactly when it is no heading and not under the gate's, shows a
      placeholder, and the document holds none that it shows, proper parts of others aside. */
  lemma DroppedIff(md: Markdown, candidates: seq<string>, normDoc: string, lines: seq<string>, i: nat)
    requires i < |lines|
    ensures DroppedAt(md, candidates, normDoc, lines, i) <==>
            && !md.isHeading(lines[i]) && !UnderGate(md, lines, i)
            && (exists c :: c in candidates && Shows(md, lines[i], c))
            && (forall c :: c in candidates && Shows(md, lines[i], c) && !ShownWithin(md, candidates, lines[i], c)
                  ==> !Contains(normDoc, md.norm(c)))
  {
    UnderGateIff(md, lines, i);
    var refs := References(md, candidates, lines[i]);
    if c :| c in candidates && Shows(md, lines[i], c) {
      assert c in refs;
      SomeIsSpecific(md, candidates, lines[i]);
    }
    var specific := Specific(md, candidates, lines[i]);
    if specific != [] {
      assert specific[0] in specific;
      SpecificIs(md, candidates, lines[i], specific[0]);
    }
    forall c
      ensures c in specific <==>
              c in candidates && Shows(md, lines[i], c) && !ShownWithin(md, candidates, lines[i], c)
    {
      SpecificIs(md, candidates, lines[i], c);
    }
  }

  /** A placeholder that is still in the document and that a dropped line shows
      is a proper part of another the line shows. */
  lemma LiveIsPart(md: Markdown, candidates: seq<string>, normDoc: string, lines: seq<string>, i: nat, c: string)
    requires i < |lines| && DroppedAt(md, candidates, normDoc, lines, i)
    requires c in candidates && Shows(md, lines[i], c) && Contains(normDoc, md.norm(c))
    ensures exists other :: other in candidates && Shows(md, lines[i], other)
                            && md.norm(other) != md.norm(c) && Contains(md.norm(other), md.norm(c))
  {
    DroppedIff(md, candidates, normDoc, lines, i);
  }

  /** A token is named exactly when some line goes and is judged by it. */
  lemma NamedIff(md: Markdown, candidates: seq<string>, normDoc: string, lines: seq<string>, c: string)
    ensures c in DroppedTokens(md, candidates, normDoc, lines) <==>
            exists i: nat :: i < |lines| && DroppedAt(md, candidates, normDoc, lines, i)
                             && c in candidates && Shows(md, lines[i], c) && !ShownWithin(md, candidates, lines[i], c)
  {
    TokensAreOfDroppedLines(md, candidates, normDoc, lines, c);
    forall i: nat | i < |lines|
      ensures c in Specific(md, candidates, lines[i]) <==>
              c in candidates && Shows(md, lines[i], c) && !ShownWithin(md, candidates, lines[i], c)
    {
      SpecificIs(md, candidates, lines[i], c);
    }
    if i: nat :| i < |lines| && DroppedAt(md, candidates, normDoc, lines, i)
                 && c in candidates && Shows(md, lines[i], c) && !ShownWithin(md, candidates, lines[i], c) {
      assert GoneFor(md, candidates, normDoc, lines, i, c);
    }
  }

  // ----- The review as a whole

  /** The document is there, and some line goes. */
  ghost predicate SomethingGoes(md: Markdown, candidates: seq<string>, doc: string, lines: seq<string>) {
    doc != "" && exists i: nat :: i < |lines| && DroppedAt(md, candidates, md.norm(doc), lines, i)
  }

  /** The review is rewritten exactly when there is a document and some line goes,
      and then it opens with the note that names what went. */
  lemma RewrittenIff(
    md: Markdown, w: Wording, count: nat -> string, lines: seq<string>, doc: string, candidates: seq<string>)
    ensures var out := ReconciledLines(md, w, count, lines, doc, candidates);
            var dropped := DroppedTokens(md, candidates, md.norm(doc), lines);
            && (out.1 != [] <==> SomethingGoes(md, candidates, doc, lines))
            && (out.1 != [] ==> out.1 == dropped && |out.0| >= 2 && out.0[1] == ""
                                && out.0[0] == w.reviewNote(count(|dropped|), Quoted(dropped)))
            && (out.1 == [] ==> out.0 == lines)
  {
    var normDoc := md.norm(doc);
    var dropped := DroppedTokens(md, candidates, normDoc, lines);
    if doc != "" && dropped == [] {
      NothingNamedNothingGone(md, candidates, normDoc, lines);
    }
    if doc != "" && dropped != [] {
      TokensAreOfDroppedLines(md, candidates, normDoc, lines, dropped[0]);
      assert dropped[0] in dropped;
      var i: nat :| GoneFor(md, candidates, normDoc, lines, i, dropped[0]);
      var specific := Specific(md, candidates, lines[i]);
      FilledIsListed(md, candidates, normDoc, dropped[0]);
      SpecificIs(md, candidates, lines[i], dropped[0]);
    }
  }

  // ----- The gate

  lemma {:induction false} CitedIs(md: Markdown, tokens: seq<string>, normBody: string, t: string)
    ensures t in Cited(md, tokens, normBody) <==> t in tokens && Contains(normBody, md.norm(t))
  {
    if tokens != [] {
      CitedIs(md, tokens[..|tokens| - 1], normBody, t);
      assert tokens == tokens[..|tokens| - 1] + [tokens[|tokens| - 1]];
    }
  }

  /** From g, the gate's heading, its section goes to the next heading or the end. */
  ghost predicate IsGate(md: Markdown, lines: seq<string>, g: nat, end: nat) {
    && g < end <= |lines| && md.isGateHeading(lines[g])
    && (forall k :: 0 <= k < g ==> !md.isGateHeading(lines[k]))
    && NoHeading(md, lines, g + 1, end) && (end < |lines| ==> md.isHeading(lines[end]))
  }

  /** The section under the gate's heading names a token whose finding went. */
  ghost predicate GateNames(md: Markdown, lines: seq<string>, dropped: seq<string>, g: nat, end: nat)
    requires g < end <= |lines|
  {
    exists t :: t in dropped && Contains(md.norm(JoinLines(lines[g + 1..end])), md.norm(t))
  }

  lemma GateIs(md: Markdown, lines: seq<string>, g: nat, end: nat)
    requires IsGate(md, lines, g, end)
    ensures GateStart(md, lines) == g && GateEnd(md, lines) == end
  {
  }

  lemma NoGate(md: Markdown, w: Wording, lines: seq<string>, dropped: seq<string>)
    requires forall k :: 0 <= k < |lines| ==> !md.isGateHeading(lines[k])
    ensures GateVerdict(md, w, lines, dropped) == lines
  {
  }

  /** The gate is annotated exactly when it names a token whose finding went, and
      the note, right under its heading, names all of those. */
  lemma AnnotatedIff(md: Markdown, w: Wording, lines: seq<string>, dropped: seq<string>, g: nat, end: nat)
    returns (cited: seq<string>)
    requires IsGate(md, lines, g, end)
    ensures GateVerdict(md, w, lines, dropped) != lines <==> GateNames(md, lines, dropped, g, end)
    ensures GateNames(md, lines, dropped, g, end) ==>
              var out := GateVerdict(md, w, lines, dropped);
              |out| == |lines| + 1 && out[g + 1] == w.gateNote(Quoted(cited))
    ensures forall t :: t in cited <==> t in dropped && Contains(md.norm(JoinLines(lines[g + 1..end])), md.norm(t))
  {
    GateIs(md, lines, g, end);
    cited := CitedInGate(md, lines, dropped);
    forall t
      ensures t in cited <==> t in dropped && Contains(md.norm(JoinLines(lines[g + 1..end])), md.norm(t))
    {
      CitedIs(md, dropped, md.norm(JoinLines(lines[g + 1..end])), t);
    }
    if cited != [] {
      assert cited[0] in cited;
    }
  }

  /** Line k is the first of the gate's section that tells its status. */
  ghost predicate IsStatusLine(md: Markdown, lines: seq<string>, g: nat, end: nat, k: nat) {
    && g < k < end <= |lines| && md.isStatus(lines[k])
    && forall j :: g < j < k ==> !md.isStatus(lines[j])
  }

  lemma StatusIs(md: Markdown, lines: seq<string>, g: nat, end: nat, k: nat)
    requires IsGate(md, lines, g, end) && IsStatusLine(md, lines, g, end, k)
    ensures FirstFrom(md.isStatus, lines, g + 1) == k
  {
  }

  /** An annotated gate's status line is replaced when no blocker is left, and stays otherwise. */
  lemma NeutralizedIff(
    md: Markdown, w: Wording, lines: seq<string>, dropped: seq<string>, g: nat, end: nat, k: nat)
    requires IsGate(md, lines, g, end) && IsStatusLine(md, lines, g, end, k) && GateNames(md, lines, dropped, g, end)
    ensures |GateVerdict(md, w, lines, dropped)| == |lines| + 1
    ensures GateVerdict(md, w, lines, dropped)[k + 1] ==
            if SurvivingBlockers(md, lines) == Some(0) then w.neutralStatus else lines[k]
  {
    GateIs(md, lines, g, end);
    StatusIs(md, lines, g, end, k);
    var cited := AnnotatedIff(md, w, lines, dropped, g, end);
    NotePlaced(GateBase(md, w, lines), g, w.gateNote(Quoted(CitedInGate(md, lines, dropped))));
  }

  // ----- Blockers

  /** The characters of a cell without emphasis and code marks, in lower case. */
  function Unmarked(s: string): string {
    if s == [] then [] else (if s[0] in {'*', '`'} then [] else [s[0]]) + Unmarked(s[1..])
  }

  lemma {:induction false} UnmarkedIs(s: string)
    ensures DropMarks(s) == Unmarked(s)
  {
    if s != [] {
      UnmarkedIs(s[1..]);
    }
  }

  /** A finding's row blocks exactly when its rating, marks and case aside, is Red or Missing Context. */
  lemma BlocksIff(md: Markdown, row: string, rating: nat)
    ensures IsBlocker(md, row, rating) <==>
            rating < |Cells(md, row)| &&
            var cell := Trim(md.isSpace, Unmarked(md.lower(Cells(md, row)[rating])));
            Trim(ch => ch == '_', cell) in {"red", "missing context", "missing-context", "missing_context"}
  {
    if rating < |Cells(md, row)| {
      var cell := md.lower(Cells(md, row)[rating]);
      UnmarkedIs(cell);
      SameTrim(ch => ch == '_', ch => ch == '_', Trim(md.isSpace, DropMarks(cell)));
    }
  }

  lemma {:induction false} SameTrim(p: char -> bool, q: char -> bool, s: string)
    requires forall ch :: p(ch) <==> q(ch)
    ensures Trim(p, s) == Trim(q, s)
    decreases |s|
  {
    if s != [] {
      SameTrim(p, q, s[1..]);
      SameTrim(p, q, s[..|s| - 1]);
    }
  }

  /** Which rows of a table, below its header, block. */
  function BlockingRows(md: Markdown, rows: seq<string>, rating: nat): (flags: seq<bool>)
    ensures |flags| == |rows| && forall i :: 0 <= i < |rows| ==> flags[i] == IsBlocker(md, rows[i], rating)
  {
    seq(|rows|, i requires 0 <= i < |rows| => IsBlocker(md, rows[i], rating))
  }

  lemma {:induction false} CountIs(md: Markdown, p: string -> bool, rows: seq<string>, rating: nat)
    requires forall r :: p(r) <==> IsBlocker(md, r, rating)
    ensures CountIf(p, rows) == |Where(BlockingRows(md, rows, rating))|
  {
    if rows != [] {
      var n := |rows| - 1;
      CountIs(md, p, rows[..n], rating);
      assert BlockingRows(md, rows, rating)[..n] == BlockingRows(md, rows[..n], rating);
    }
  }

  /** Which lines of a section are table rows. */
  function TableLines(md: Markdown, section: seq<string>): (flags: seq<bool>)
    ensures |flags| == |section|
    ensures forall i :: 0 <= i < |section| ==> flags[i] == ("|" <= Trim(md.isSpace, section[i]))
  {
    seq(|section|, i requires 0 <= i < |section| => "|" <= Trim(md.isSpace, section[i]))
  }

  lemma {:induction false} TableRowsAre(md: Markdown, section: seq<string>)
    ensures |TableRows(md, section)| == |Where(TableLines(md, section))|
    ensures forall i :: 0 <= i < |TableRows(md, section)| ==>
              TableRows(md, section)[i] == section[Where(TableLines(md, section))[i]]
  {
    if section != [] {
      var n := |section| - 1;
      TableRowsAre(md, section[..n]);
      assert TableLines(md, section)[..n] == TableLines(md, section[..n]);
    }
  }

  /** The section under the first Key Findings heading. */
  ghost predicate IsFindings(md: Markdown, lines: seq<string>, k: nat, end: nat) {
    && k < end <= |lines| && md.isKeyFindings(lines[k])
    && (forall j :: 0 <= j < k ==> !md.isKeyFindings(lines[j]))
    && NoHeading(md, lines, k + 1, end) && (end < |lines| ==> md.isHeading(lines[end]))
  }

  /** The header's first cell that names the rating. */
  ghost predicate IsRatingColumn(md: Markdown, header: seq<string>, col: nat) {
    && col < |header| && md.lower(header[col]) in {"rating", "risk"}
    && forall j :: 0 <= j < col ==> md.lower(header[j]) !in {"rating", "risk"}
  }

  /** The surviving blockers are the blocking rows below the header of the
      findings' table, counted by its first rating column. */
  lemma BlockersAre(md: Markdown, lines: seq<string>, k: nat, end: nat, col: nat)
    requires IsFindings(md, lines, k, end) && Where(TableLines(md, lines[k + 1..end])) != []
    requires IsRatingColumn(md, Cells(md, lines[k + 1..end][Where(TableLines(md, lines[k + 1..end]))[0]]), col)
    ensures var rows := TableRows(md, lines[k + 1..end]);
            rows != [] && SurvivingBlockers(md, lines) == Some(|Where(BlockingRows(md, rows[1..], col))|)
  {
    var rows := TableRows(md, lines[k + 1..end]);
    TableRowsAre(md, lines[k + 1..end]);
    FindingsAre(md, lines, k, end);
    RatedAre(md, rows, col);
  }

  lemma FindingsAre(md: Markdown, lines: seq<string>, k: nat, end: nat)
    requires IsFindings(md, lines, k, end)
    ensures FindingRows(md, lines) == TableRows(md, lines[k + 1..end])
  {
    assert FirstFrom(md.isKeyFindings, lines, 0) == k;
    assert FirstFrom(md.isHeading, lines, k + 1) == end;
  }

  lemma RatedAre(md: Markdown, rows: seq<string>, col: nat)
    requires rows != [] && IsRatingColumn(md, Cells(md, rows[0]), col)
    ensures RatedBlockers(md, rows) == Some(|Where(BlockingRows(md, rows[1..], col))|)
  {
    var p := cell => IsRatingHeader(md, cell);
    var header := Cells(md, rows[0]);
    assert FirstFrom(p, header, 0) == col by {
      assert p(header[col]) && forall j :: 0 <= j < col ==> !p(header[j]);
    }
    CountIs(md, row => IsBlocker(md, row, col), rows[1..], col);
  }

  ghost predicate NoRatingColumn(md: Markdown, header: seq<string>) {
    forall col :: 0 <= col < |header| ==> md.lower(header[col]) !in {"rating", "risk"}
  }

  lemma NoFindings(md: Markdown, lines: seq<string>)
    requires forall j :: 0 <= j < |lines| ==> !md.isKeyFindings(lines[j])
    ensures SurvivingBlockers(md, lines) == None
  {
  }

  /** Without a table row or a rating column the number is unknown, and the gate's status stays. */
  lemma UnknownBlockers(md: Markdown, lines: seq<string>, k: nat, end: nat)
    requires IsFindings(md, lines, k, end)
    requires var rows := Where(TableLines(md, lines[k + 1..end]));
             rows == [] || NoRatingColumn(md, Cells(md, lines[k + 1..end][rows[0]]))
    ensures SurvivingBlockers(md, lines) == None
  {
    FindingsAre(md, lines, k, end);
    TableRowsAre(md, lines[k + 1..end]);
    var rows := TableRows(md, lines[k + 1..end]);
    if rows != [] {
      var p := cell => IsRatingHeader(md, cell);
      assert FirstFrom(p, Cells(md, rows[0]), 0) == |Cells(md, rows[0])|;
    }
  }

  function Ticked(token: string): string {
    "`" + token + "`"
  }

  lemma QuotedNext(tokens: seq<string>)
    requires |tokens| > 1
    ensures Quoted(tokens) == Quoted(tokens[..|tokens| - 1]) + (", " + Ticked(tokens[|tokens| - 1]))
  {
    Grouped(Quoted(tokens[..|tokens| - 1]), ", `", tokens[|tokens| - 1], "`");
    assert ", `" == ", " + "`";
  }

  lemma Grouped(a: string, b: string, c: string, d: string)
    ensures a + b + c + d == a + (b + (c + d))
  {
  }

  /** A note names each token in backticks. */
  lemma {:induction false} QuotedNames(tokens: seq<string>, i: nat)
    requires i < |tokens|
    ensures Contains(Quoted(tokens), Ticked(tokens[i]))
  {
    var n := |tokens| - 1;
    var t := Ticked(tokens[i]);
    if n == 0 {
      HeldLast("", t);
      assert "" + t == t;
    } else {
      QuotedNext(tokens);
      if i == n {
        HeldLast(Quoted(tokens[..n]) + ", ", t);
        Grouped(Quoted(tokens[..n]), ", ", t, "");
        assert t + "" == t && Quoted(tokens[..n]) + ", " + t + "" == Quoted(tokens[..n]) + ", " + t;
      } else {
        QuotedNames(tokens[..n], i);
        HeldBefore(Quoted(tokens[..n]), ", " + Ticked(tokens[n]), t);
      }
    }
  }

  lemma HeldLast(s: string, t: string)
    ensures Contains(s + t, t)
  {
    assert StandsAt(s + t, t, |s|);
  }

  lemma HeldBefore(s: string, more: string, t: string)
    requires Contains(s, t)
    ensures Contains(s + more, t)
  {
    var k: nat :| k <= |s| && StandsAt(s, t, k);
    assert (s + more)[k..k + |t|] == s[k..k + |t|];
    assert StandsAt(s + more, t, k);
  }

  // ----- Tables

  predicate IsBar(ch: char) {
    ch == '|'
  }

  function JoinBars(parts: seq<string>): string {
    if parts == [] then ""
    else if |parts| == 1 then parts[0]
    else parts[0] + "|" + JoinBars(parts[1..])
  }

  ghost predicate NoBars(parts: seq<string>) {
    forall i :: 0 <= i < |parts| ==> '|' !in parts[i]
  }

  ghost predicate TrimmedAll(md: Markdown, parts: seq<string>, cells: seq<string>) {
    |cells| == |parts| && forall i :: 0 <= i < |parts| ==> cells[i] == Trim(md.isSpace, parts[i])
  }

  lemma {:induction false} SplitJoins(isBar: char -> bool, s: string, parts: seq<string>)
    requires (forall ch :: isBar(ch) <==> ch == '|') && parts == SplitAt(isBar, s)
    ensures JoinBars(parts) == s && NoBars(parts)
  {
    if s != [] {
      var rest := SplitAt(isBar, s[1..]);
      SplitJoins(isBar, s[1..], rest);
      if s[0] == '|' {
        assert parts[1..] == rest;
      } else {
        assert parts[1..] == rest[1..];
      }
    }
  }

  /** A row's cells: what stands between its bars, those at its ends aside, trimmed. */
  lemma CellsAre(md: Markdown, row: string) returns (parts: seq<string>)
    ensures TrimmedAll(md, parts, Cells(md, row)) && NoBars(parts)
    ensures JoinBars(parts) == Trim(IsBar, Trim(md.isSpace, row))
  {
    var isBar := ch => ch == '|';
    SameTrim(isBar, IsBar, Trim(md.isSpace, row));
    SameTrim(ch => ch == '|', IsBar, Trim(md.isSpace, row));
    parts := SplitAt(ch => ch == '|', StripBars(md, row));
    SplitJoins(ch => ch == '|', StripBars(md, row), parts);
  }
}
