// Which buffers leave in which unit, as parse_docx runs over a document
// (ingest/parsers/docx_parser.py), and under which headings.

module ChunkUnits {
  import opened Wrappers
  import opened Strings
  import opened Chunker

  /** What the parser holds after some elements, and the units it has emitted. */
  datatype State = State(headings: Headings, buffer: seq<string>, held: seq<Held>, units: seq<Unit>, taken: nat)

  function Start(): State {
    State(NoHeadings(), [], [], [], 0)
  }

  function PendingFlushed(s: State): State {
    s.(held := [], units := s.units + [Unit(s.held, s.headings, s.taken)])
  }

  /** The open buffer, closed. */
  function Closed(s: State): Held {
    Held(s.buffer, s.headings, s.taken)
  }

  function HeldBack(s: State): State {
    s.(buffer := [], held := s.held + [Closed(s)])
  }

  function EmittedAlone(s: State): State {
    s.(buffer := [], units := s.units + [Unit([Closed(s)], s.headings, s.taken)])
  }

  /** A small buffer is held back; a larger one leaves by itself, behind what was held back. */
  function BufferFlushed(t: Tools, s: State): State {
    if Small(t, s.buffer) then HeldBack(s) else EmittedAlone(PendingFlushed(s))
  }

  function AllFlushed(t: Tools, s: State): State {
    PendingFlushed(BufferFlushed(t, s))
  }

  /** A numbered paragraph, a heading or a bold heading: everything is flushed before it. */
  predicate EndsUnit(t: Tools, p: Paragraph) {
    Trim(t.isSpace, p.text) != "" && (IsDecimal(p) || (p.level.Some? && p.level.value != 0) || p.boldHeading)
  }

  /** The clause number at the start of body text. */
  function NumberOf(t: Tools, e: Element): string {
    if e.Para? && Trim(t.isSpace, e.p.text) != "" && !EndsUnit(t, e.p)
    then t.clauseNumberOf(Trim(t.isSpace, e.p.text)) else ""
  }

  /** The label at the start of a list paragraph without a number. */
  function LabelOf(t: Tools, e: Element): string {
    if e.Para? && Trim(t.isSpace, e.p.text) != "" && !EndsUnit(t, e.p) && e.p.listParagraph && NumberOf(t, e) == ""
    then t.labelOf(Trim(t.isSpace, e.p.text)) else ""
  }

  function TextsOf(t: Tools, e: Element): seq<string> {
    match e
    case Para(p) => (match BufferedText(t, p) case None => [] case Some(text) => [text])
    case Table(text) => if text == "" then [] else [text]
  }

  /** What an element flushes before it is taken. */
  function Flushed(t: Tools, s: State, e: Element): State {
    if e.Para? && EndsUnit(t, e.p) then AllFlushed(t, s)
    else if NumberOf(t, e) != "" && s.buffer != [] then BufferFlushed(t, s)
    else if LabelOf(t, e) != "" && s.headings.clauseNumber == "" then BufferFlushed(t, s)
    else s
  }

  function Advanced(t: Tools, s: State, e: Element): State {
    var f := Flushed(t, s, e);
    f.(headings := if e.Para? then NextHeadings(t, s.headings, e.p) else s.headings, buffer := f.buffer + TextsOf(t, e))
  }

  lemma AdvancedBlank(t: Tools, s: State, p: Paragraph)
    requires Trim(t.isSpace, p.text) == ""
    ensures Advanced(t, s, Para(p)) == s
  {
    assert s.buffer + [] == s.buffer;
  }

  lemma AdvancedTable(t: Tools, s: State, text: string)
    ensures Advanced(t, s, Table(text)) == if text == "" then s else s.(buffer := s.buffer + [text])
  {
    assert s.buffer + [] == s.buffer;
  }

  /** Where everything is flushed the paragraph's text, if kept, begins a new buffer. */
  lemma AdvancedPastEnd(t: Tools, s: State, p: Paragraph)
    requires EndsUnit(t, p)
    ensures AllFlushed(t, s).buffer == [] && AllFlushed(t, s).held == []
    ensures Advanced(t, s, Para(p)) == AllFlushed(t, s).(
              headings := NextHeadings(t, s.headings, p),
              buffer := match BufferedText(t, p) case None => [] case Some(x) => [x])
  {
    assert AllFlushed(t, s).buffer == [];
    assert [] + TextsOf(t, Para(p)) == TextsOf(t, Para(p));
  }

  /** Whether body text flushes the buffer before it is added. */
  predicate BeginsBuffer(t: Tools, s: State, p: Paragraph, text: string) {
    if t.clauseNumberOf(text) != "" then s.buffer != []
    else t.labelOf(text) != "" && p.listParagraph && s.headings.clauseNumber == ""
  }

  lemma AdvancedInside(t: Tools, s: State, p: Paragraph, text: string)
    requires text == Trim(t.isSpace, p.text) && text != "" && !EndsUnit(t, p)
    ensures var f := if BeginsBuffer(t, s, p, text) then BufferFlushed(t, s) else s;
            Advanced(t, s, Para(p)) ==
            f.(headings := BodyHeadings(t, s.headings, p, text), buffer := f.buffer + [text])
  {
  }

  function Took(t: Tools, s: State, e: Element): State {
    Advanced(t, s, e).(taken := s.taken + 1)
  }

  lemma AdvancedTakesOne(t: Tools, s: State, e: Element)
    ensures Took(t, s, e) == Advanced(t, s, e).(taken := Advanced(t, s, e).taken + 1)
  {
  }

  function StateAfter(t: Tools, body: seq<Element>): State {
    if body == [] then Start() else Took(t, StateAfter(t, body[..|body| - 1]), body[|body| - 1])
  }

  /** The units of a document. */
  function UnitsOf(t: Tools, body: seq<Element>): seq<Unit> {
    AllFlushed(t, StateAfter(t, body)).units
  }

  // ----- Where a unit's buffers stand in the document

  predicate KeepsUnit(t: Tools, e: Element) {
    e.Para? ==> !EndsUnit(t, e.p)
  }

  predicate AllKeepUnit(t: Tools, seg: seq<Element>) {
    forall i :: 0 <= i < |seg| ==> KeepsUnit(t, seg[i])
  }

  /** The buffer was closed under the headings then current, and nothing ended its unit before element n. */
  predicate BufferPlaced(t: Tools, body: seq<Element>, b: Held, n: nat) {
    b.upto <= n <= |body| && b.came == HeadingsAfter(t, body[..b.upto]) && AllKeepUnit(t, body[b.upto..n])
  }

  predicate AllPlaced(t: Tools, body: seq<Element>, bs: seq<Held>, n: nat) {
    forall i :: 0 <= i < |bs| ==> BufferPlaced(t, body, bs[i], n)
  }

  predicate UnitPlaced(t: Tools, body: seq<Element>, u: Unit) {
    u.upto <= |body| && u.at == HeadingsAfter(t, body[..u.upto]) && AllPlaced(t, body, u.buffers, u.upto)
  }

  predicate AllUnitsPlaced(t: Tools, body: seq<Element>, us: seq<Unit>) {
    forall i :: 0 <= i < |us| ==> UnitPlaced(t, body, us[i])
  }

  /** Everything held back and emitted so far stands where it says. */
  ghost predicate StatePlaced(t: Tools, body: seq<Element>, s: State) {
    && s.taken == |body| && s.headings == HeadingsAfter(t, body)
    && AllPlaced(t, body, s.held, |body|) && AllUnitsPlaced(t, body, s.units)
  }

  lemma BufferStaysPlaced(t: Tools, body: seq<Element>, e: Element, b: Held, n: nat)
    requires BufferPlaced(t, body, b, n)
    ensures BufferPlaced(t, body + [e], b, n)
    ensures n == |body| && KeepsUnit(t, e) ==> BufferPlaced(t, body + [e], b, n + 1)
  {
    var more := body + [e];
    assert more[..b.upto] == body[..b.upto] && more[b.upto..n] == body[b.upto..n];
    if n == |body| {
      assert more[b.upto..n + 1] == body[b.upto..n] + [e];
    }
  }

  lemma UnitsStayPlaced(t: Tools, body: seq<Element>, e: Element, us: seq<Unit>)
    requires AllUnitsPlaced(t, body, us)
    ensures AllUnitsPlaced(t, body + [e], us)
  {
    forall i | 0 <= i < |us|
      ensures UnitPlaced(t, body + [e], us[i])
    {
      var u := us[i];
      assert UnitPlaced(t, body, u);
      assert (body + [e])[..u.upto] == body[..u.upto];
      forall j | 0 <= j < |u.buffers|
        ensures BufferPlaced(t, body + [e], u.buffers[j], u.upto)
      {
        BufferStaysPlaced(t, body, e, u.buffers[j], u.upto);
      }
    }
  }

  lemma HeldStayPlaced(t: Tools, body: seq<Element>, e: Element, bs: seq<Held>)
    requires AllPlaced(t, body, bs, |body|) && KeepsUnit(t, e)
    ensures AllPlaced(t, body + [e], bs, |body| + 1)
  {
    forall i | 0 <= i < |bs|
      ensures BufferPlaced(t, body + [e], bs[i], |body| + 1)
    {
      BufferStaysPlaced(t, body, e, bs[i], |body|);
    }
  }

  lemma PendingKeepsPlaced(t: Tools, body: seq<Element>, s: State)
    requires StatePlaced(t, body, s)
    ensures StatePlaced(t, body, PendingFlushed(s))
  {
    assert body[..|body|] == body;
    assert UnitPlaced(t, body, Unit(s.held, s.headings, s.taken));
  }

  lemma BufferKeepsPlaced(t: Tools, body: seq<Element>, s: State)
    requires StatePlaced(t, body, s)
    ensures StatePlaced(t, body, BufferFlushed(t, s))
  {
    var b := Closed(s);
    assert body[..|body|] == body && body[|body|..] == [];
    assert BufferPlaced(t, body, b, |body|);
    if !Small(t, s.buffer) {
      PendingKeepsPlaced(t, body, s);
      assert UnitPlaced(t, body, Unit([b], s.headings, s.taken));
    }
  }

  lemma AllKeepsPlaced(t: Tools, body: seq<Element>, s: State)
    requires StatePlaced(t, body, s)
    ensures StatePlaced(t, body, AllFlushed(t, s))
  {
    BufferKeepsPlaced(t, body, s);
    PendingKeepsPlaced(t, body, BufferFlushed(t, s));
  }

  lemma FlushedKeepsPlaced(t: Tools, body: seq<Element>, s: State, e: Element)
    requires StatePlaced(t, body, s)
    ensures StatePlaced(t, body, Flushed(t, s, e))
    ensures !KeepsUnit(t, e) ==> Flushed(t, s, e).held == []
  {
    BufferKeepsPlaced(t, body, s);
    AllKeepsPlaced(t, body, s);
  }

  lemma TookKeepsPlaced(t: Tools, body: seq<Element>, s: State, e: Element)
    requires StatePlaced(t, body, s)
    ensures StatePlaced(t, body + [e], Took(t, s, e))
  {
    var f := Flushed(t, s, e);
    FlushedKeepsPlaced(t, body, s, e);
    UnitsStayPlaced(t, body, e, f.units);
    if KeepsUnit(t, e) {
      HeldStayPlaced(t, body, e, f.held);
    }
    assert (body + [e])[..|body|] == body;
  }

  lemma {:induction false} RunKeepsPlaced(t: Tools, body: seq<Element>)
    ensures StatePlaced(t, body, StateAfter(t, body))
  {
    if body != [] {
      var n := |body| - 1;
      RunKeepsPlaced(t, body[..n]);
      TookKeepsPlaced(t, body[..n], StateAfter(t, body[..n]), body[n]);
      assert body[..n] + [body[n]] == body;
    }
  }

  /** Every unit of a document was emitted under the headings current after its
      `upto`, each of its buffers closed under those after the buffer's own, and
      only body text, blanks and tables stand between. */
  lemma UnitsArePlaced(t: Tools, body: seq<Element>)
    ensures AllUnitsPlaced(t, body, UnitsOf(t, body))
  {
    RunKeepsPlaced(t, body);
    AllKeepsPlaced(t, body, StateAfter(t, body));
  }

  lemma StateHeadings(t: Tools, body: seq<Element>)
    ensures StateAfter(t, body).headings == HeadingsAfter(t, body)
  {
    RunKeepsPlaced(t, body);
  }

  // ----- What body text does to the headings

  /** The clause numbers of a stretch of body text. */
  function Numbers(t: Tools, seg: seq<Element>): seq<string> {
    if seg == [] then []
    else
      var p := Numbers(t, seg[..|seg| - 1]);
      var number := NumberOf(t, seg[|seg| - 1]);
      if number == "" then p else p + [number]
  }

  /** The labels in it that stand before its first clause number. */
  function Labels(t: Tools, seg: seq<Element>): seq<string> {
    if seg == [] then []
    else
      var p := Labels(t, seg[..|seg| - 1]);
      var found := LabelOf(t, seg[|seg| - 1]);
      if found == "" || Numbers(t, seg[..|seg| - 1]) != [] then p else p + [found]
  }

  lemma {:induction false} NumbersAreNumbers(t: Tools, seg: seq<Element>)
    ensures forall i :: 0 <= i < |Numbers(t, seg)| ==> Numbers(t, seg)[i] != ""
  {
    if seg != [] {
      NumbersAreNumbers(t, seg[..|seg| - 1]);
    }
  }

  function LastOr(ss: seq<string>, s: string): string {
    if ss == [] then s else ss[|ss| - 1]
  }

  /** Body text leaves the section alone; the number is the last one in it, and
      the clause the last label before any number, unless there was a number already. */
  predicate MovedBy(t: Tools, h: Headings, seg: seq<Element>, after: Headings) {
    && after.section == h.section && after.sectionNumber == h.sectionNumber
    && after.clauseNumber == LastOr(Numbers(t, seg), h.clauseNumber)
    && after.clause == if h.clauseNumber != "" then h.clause else LastOr(Labels(t, seg), h.clause)
  }

  lemma BodyMovesHeadings(t: Tools, h: Headings, seg: seq<Element>, at: Headings, e: Element)
    requires MovedBy(t, h, seg, at) && KeepsUnit(t, e)
    ensures MovedBy(t, h, seg + [e], if e.Para? then NextHeadings(t, at, e.p) else at)
  {
    OneMoreElement(t, seg, e);
    NumbersAreNumbers(t, seg);
    BodyMoves(t, at, e);
  }

  lemma OneMoreElement(t: Tools, seg: seq<Element>, e: Element)
    ensures Numbers(t, seg + [e]) ==
            if NumberOf(t, e) == "" then Numbers(t, seg) else Numbers(t, seg) + [NumberOf(t, e)]
    ensures Labels(t, seg + [e]) ==
            if LabelOf(t, e) == "" || Numbers(t, seg) != [] then Labels(t, seg) else Labels(t, seg) + [LabelOf(t, e)]
  {
    assert (seg + [e])[..|seg|] == seg;
  }

  /** What one element of body text does to the headings. */
  lemma BodyMoves(t: Tools, h: Headings, e: Element)
    requires KeepsUnit(t, e)
    ensures var after := if e.Para? then NextHeadings(t, h, e.p) else h;
            after == if NumberOf(t, e) != "" then h.(clauseNumber := NumberOf(t, e))
                     else if LabelOf(t, e) != "" && h.clauseNumber == "" then h.(clause := LabelOf(t, e))
                     else h
  {
  }

  lemma {:induction false} HeadingsInside(t: Tools, body: seq<Element>, m: nat, n: nat)
    requires m <= n <= |body| && AllKeepUnit(t, body[m..n])
    ensures MovedBy(t, HeadingsAfter(t, body[..m]), body[m..n], HeadingsAfter(t, body[..n]))
    decreases n
  {
    if m < n {
      SplitsLast(t, body, m, n);
      HeadingsInside(t, body, m, n - 1);
      BodyMovesHeadings(t, HeadingsAfter(t, body[..m]), body[m..n - 1], HeadingsAfter(t, body[..n - 1]), body[n - 1]);
    }
  }

  lemma SplitsLast(t: Tools, body: seq<Element>, m: nat, n: nat)
    requires m < n <= |body| && AllKeepUnit(t, body[m..n])
    ensures body[m..n] == body[m..n - 1] + [body[n - 1]]
    ensures AllKeepUnit(t, body[m..n - 1]) && KeepsUnit(t, body[n - 1])
    ensures HeadingsAfter(t, body[..n]) ==
            var at := HeadingsAfter(t, body[..n - 1]);
            if body[n - 1].Para? then NextHeadings(t, at, body[n - 1].p) else at
  {
    assert body[m..n][n - 1 - m] == body[n - 1];
    assert forall i :: 0 <= i < n - 1 - m ==> body[m..n - 1][i] == body[m..n][i];
    assert body[..n][..n - 1] == body[..n - 1];
  }

  // ----- Which clause a text leaves under

  lemma {:induction false} FirstNumberIsOneOf(t: Tools, buffers: seq<Held>) returns (i: nat)
    requires FirstNumber(t, buffers) != ""
    ensures i < |buffers| && buffers[i].came.clauseNumber == FirstNumber(t, buffers)
  {
    var init := buffers[..|buffers| - 1];
    if FirstNumber(t, init) != "" {
      i := FirstNumberIsOneOf(t, init);
    } else {
      i := |init|;
    }
  }

  /** A unit's chunks always carry the headings current at its flush: when there is
      no clause number then, none was held back, so the held one is never used. */
  lemma CarriedIsCurrent(t: Tools, body: seq<Element>, u: Unit)
    requires UnitPlaced(t, body, u)
    ensures Carried(t, u) == u.at
  {
    if FirstNumber(t, u.buffers) != "" {
      var i := FirstNumberIsOneOf(t, u.buffers);
      NumberedStaysNumbered(t, body, u, i);
    }
  }

  lemma NumberedStaysNumbered(t: Tools, body: seq<Element>, u: Unit, i: nat)
    requires UnitPlaced(t, body, u) && i < |u.buffers| && u.buffers[i].came.clauseNumber != ""
    ensures u.at.clauseNumber != "" && u.at.clause == u.buffers[i].came.clause
  {
    var b := u.buffers[i];
    assert BufferPlaced(t, body, b, u.upto);
    HeadingsInside(t, body, b.upto, u.upto);
    NumbersAreNumbers(t, body[b.upto..u.upto]);
  }

  /** Which headings a document's text leaves under: its own clause exactly when it
      came in with a clause number, or the last label between it and the flush,
      before any number, names the same clause; its own clause number exactly when
      the last number between them is the same. */
  lemma LeavesUnderItsClauseIff(t: Tools, body: seq<Element>, k: nat, i: nat)
    requires k < |UnitsOf(t, body)| && i < |UnitsOf(t, body)[k].buffers|
    ensures var u := UnitsOf(t, body)[k];
            var b := u.buffers[i];
            && b.upto <= u.upto <= |body| && b.came == HeadingsAfter(t, body[..b.upto])
            && (Carried(t, u).clause == b.came.clause <==>
                b.came.clauseNumber != "" || LastOr(Labels(t, body[b.upto..u.upto]), b.came.clause) == b.came.clause)
            && (Carried(t, u).clauseNumber == b.came.clauseNumber <==>
                LastOr(Numbers(t, body[b.upto..u.upto]), b.came.clauseNumber) == b.came.clauseNumber)
  {
    var u := UnitsOf(t, body)[k];
    UnitsArePlaced(t, body);
    assert UnitPlaced(t, body, u);
    var b := u.buffers[i];
    assert BufferPlaced(t, body, b, u.upto);
    CarriedIsCurrent(t, body, u);
    HeadingsInside(t, body, b.upto, u.upto);
  }

  // ----- A document whose first text leaves under the clause that begins after it

  /** Plain body text, without a number or a label. */
  predicate PlainText(t: Tools, p: Paragraph, text: string) {
    && Trim(t.isSpace, p.text) == text != "" && !EndsUnit(t, p)
    && t.clauseNumberOf(text) == "" && (p.listParagraph ==> t.labelOf(text) == "")
  }

  /** A labelled list paragraph. */
  predicate Labelled(t: Tools, p: Paragraph, text: string) {
    && Trim(t.isSpace, p.text) == text != "" && !EndsUnit(t, p) && p.listParagraph
    && t.clauseNumberOf(text) == "" && t.labelOf(text) != ""
  }

  lemma StateOfTwo(t: Tools, e: Element, f: Element)
    ensures StateAfter(t, [e, f]) == Took(t, Took(t, Start(), e), f)
  {
    assert [e, f][..1] == [e] && [e][..0] == [];
    assert StateAfter(t, [e]) == Took(t, Start(), e);
  }

  /** A small text and a small labelled list paragraph behind it: both leave in one
      unit, under the label, though the first came in under no clause. */
  lemma LabelTakesTheTextBefore(t: Tools, p: Paragraph, q: Paragraph, a: string, b: string)
    requires PlainText(t, p, a) && Labelled(t, q, b) && Small(t, [a]) && Small(t, [b])
    ensures var under := Headings("", "", t.labelOf(b), "");
            UnitsOf(t, [Para(p), Para(q)]) == [Unit([Held([a], NoHeadings(), 1), Held([b], under, 2)], under, 2)]
  {
    StateOfTwo(t, Para(p), Para(q));
    PlainTakes(t, Start(), p, a);
    var s1 := Took(t, Start(), Para(p));
    LabelTakes(t, s1, q, b);
    var s2 := Took(t, s1, Para(q));
    LastFlush(t, s2, b);
    TwoClosed(Closed(s1), Closed(s2), s2.headings, s2.taken);
  }

  lemma TwoClosed(a: Held, b: Held, under: Headings, upto: nat)
    ensures [] + [a] == [a] && [a] + [b] == [a, b] && [] + [Unit([a, b], under, upto)] == [Unit([a, b], under, upto)]
  {
  }

  lemma PlainTakes(t: Tools, s: State, p: Paragraph, a: string)
    requires PlainText(t, p, a) && s == Start()
    ensures Took(t, s, Para(p)) == State(NoHeadings(), [a], [], [], 1)
  {
    AdvancedInside(t, s, p, a);
  }

  lemma LabelTakes(t: Tools, s: State, q: Paragraph, b: string)
    requires Labelled(t, q, b) && Small(t, s.buffer) && s.headings == NoHeadings()
    ensures Took(t, s, Para(q)) ==
            State(Headings("", "", t.labelOf(b), ""), [b], s.held + [Closed(s)], s.units, s.taken + 1)
  {
    AdvancedInside(t, s, q, b);
  }

  lemma LastFlush(t: Tools, s: State, b: string)
    requires s.buffer == [b] && Small(t, [b])
    ensures AllFlushed(t, s).units == s.units + [Unit(s.held + [Closed(s)], s.headings, s.taken)]
  {
  }

  const EXAMPLE := Tools(
    ch => ch == ' ' || ch == '\n', 50, 400, text => "", text => if text == "Term: one year." then "Term" else "")

  /** "Preamble." followed by the list paragraph "Term: one year." leaves under the clause "Term". */
  lemma LaterClauseIsCarried()
    ensures var body := [
              Para(Paragraph("Preamble.", None, None, "", false, false)),
              Para(Paragraph("Term: one year.", None, None, "", false, true))];
            && |UnitsOf(EXAMPLE, body)| == 1 && UnitsOf(EXAMPLE, body)[0].buffers[0].texts == ["Preamble."]
            && UnitsOf(EXAMPLE, body)[0].buffers[0].came.clause == ""
            && Carried(EXAMPLE, UnitsOf(EXAMPLE, body)[0]).clause == "Term"
  {
    var a, b := "Preamble.", "Term: one year.";
    var p, q := Paragraph(a, None, None, "", false, false), Paragraph(b, None, None, "", false, true);
    assert Trim(EXAMPLE.isSpace, a) == a && Trim(EXAMPLE.isSpace, b) == b;
    assert JoinLines([a]) == a && JoinLines([b]) == b;
    LabelTakesTheTextBefore(EXAMPLE, p, q, a, b);
    UnitsArePlaced(EXAMPLE, [Para(p), Para(q)]);
    CarriedIsCurrent(EXAMPLE, [Para(p), Para(q)], UnitsOf(EXAMPLE, [Para(p), Para(q)])[0]);
  }
}
