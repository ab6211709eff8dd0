// The chunking state machine of parse_docx (ingest/parsers/docx_parser.py): the
// nested functions and the loop over the document's elements.

module DocxParser {
  import opened Strings
  import opened Chunker
  import opened ChunkUnits

  class Parser {
    const tools: Tools
    var headings: Headings
    var buffer: seq<string>
    var pendingSmall: seq<string>
    var pendingClause: string
    var chunks: seq<Chunk>
    /** Texts buffered so far, buffers held back, units emitted, and elements taken. */
    ghost var log: seq<Entry>
    ghost var held: seq<Held>
    ghost var units: seq<Unit>
    ghost var taken: nat

    ghost function Now(): State
      reads this
    {
      State(headings, buffer, held, units, taken)
    }

    /** Every text ever buffered is in exactly one emitted unit, held back, or in
        the buffer: in the order it came, with the headings it came in under. */
    ghost predicate Valid()
      reads this
    {
      && HeldAs(tools, pendingSmall, pendingClause, held)
      && ShownAs(tools, chunks, units)
      && Accounted(log, units, held, headings, buffer)
    }

    constructor (t: Tools)
      ensures Valid() && tools == t && log == [] && chunks == [] && Now() == Start()
    {
      tools := t;
      headings := NoHeadings();
      buffer, pendingSmall, pendingClause, chunks := [], [], "", [];
      log, held, units, taken := [], [], [], 0;
    }

    method EmitChunk(text: string, clauseNumber: string)
      requires text != ""
      modifies this`chunks
      ensures Shown(chunks) == Shown(old(chunks)) + Pieces(tools, text, ChunkHeadings(headings, clauseNumber))
      ensures AllUnder(chunks, |old(chunks)|, ChunkHeadings(headings, clauseNumber))
    {
      var parts := SplitOversized(tools.isSpace, text, tools.maxTokens);
      var h := ChunkHeadings(headings, clauseNumber);
      ghost var shown := Under(h, TrimEach(tools, parts));
      PiecesOf(tools, text, h, parts);
      for i := 0 to |parts|
        invariant Shown(chunks) == Shown(old(chunks)) + shown[..i]
        invariant AllUnder(chunks, |old(chunks)|, h)
      {
        ShownMore(chunks, Chunk(Trim(tools.isSpace, parts[i]), h), i, shown, Shown(old(chunks)));
        chunks := chunks + [Chunk(Trim(tools.isSpace, parts[i]), h)];
      }
      assert shown[..|parts|] == shown;
    }

    /** Emits one unit made of the given buffers, when they hold any text. */
    method EmitUnit(text: string, clauseNumber: string, ghost u: Unit)
      requires ShownAs(tools, chunks, units) && Sized(tools, u) && text == UnitText(tools, u)
      requires text != "" ==> ChunkHeadings(headings, clauseNumber) == Carried(tools, u)
      modifies this`chunks, this`units
      ensures units == old(units) + [u]
      ensures ShownAs(tools, chunks, units)
    {
      if text != "" {
        EmitChunk(text, clauseNumber);
      }
      UnitShown(tools, old(chunks), chunks, units, u);
      units := units + [u];
    }

    method FlushPending()
      requires Valid()
      modifies this
      ensures Valid() && log == old(log) && Now() == PendingFlushed(old(Now()))
      ensures pendingSmall == [] && pendingClause == ""
    {
      ghost var u := Unit(held, headings, taken);
      FlushedHeld(tools, log, units, u, headings, buffer, pendingSmall, pendingClause);
      NothingVisible(tools);
      if pendingSmall == [] {
        EmitUnit("", "", u);
      } else {
        EmitUnit(Trim(tools.isSpace, JoinLines(pendingSmall)), pendingClause, u);
        pendingSmall, pendingClause := [], "";
      }
      held := [];
    }

    method FlushBuffer()
      requires Valid()
      modifies this
      ensures Valid() && log == old(log) && Now() == BufferFlushed(tools, old(Now()))
    {
      var text := Trim(tools.isSpace, JoinLines(buffer));
      if text != "" && Estimate(text) >= tools.minTokens {
        FlushPending();
        EmitAlone(text, Unit([Closed(Now())], headings, taken));
      } else {
        HoldBack(text);
      }
    }

    /** A buffer that is not small becomes a unit of its own. */
    method EmitAlone(text: string, ghost u: Unit)
      requires u == Unit([Closed(Now())], headings, taken)
      requires Valid() && text == BufferText(tools, buffer) && held == [] && pendingSmall == [] && pendingClause == ""
      requires text != "" && Estimate(text) >= tools.minTokens
      modifies this`chunks, this`units, this`buffer
      ensures Valid() && buffer == [] && units == old(units) + [u]
    {
      LoneUnit(tools, log, units, held, headings, buffer, u);
      EmitUnit(text, headings.clauseNumber, u);
      buffer := [];
      assert held == [] && pendingSmall == [] && pendingClause == "";
      NothingVisible(tools);
    }

    /** A small one waits to be joined with its neighbours. */
    method HoldBack(text: string)
      requires Valid() && text == BufferText(tools, buffer) && Small(tools, buffer)
      modifies this
      ensures Valid() && log == old(log)
      ensures Now() == HeldBack(old(Now()))
    {
      ghost var b := Closed(Now());
      HeldMore(tools, pendingSmall, pendingClause, held, b, text);
      StillAccounted(log, units, held, headings, buffer, b);
      held := held + [b];
      buffer := [];
      if text != "" {
        pendingSmall := pendingSmall + [text];
        if pendingClause == "" && headings.clauseNumber != "" {
          pendingClause := headings.clauseNumber;
        }
      }
    }

    method FlushAll()
      requires Valid()
      modifies this
      ensures Valid() && log == old(log) && Now() == AllFlushed(tools, old(Now()))
    {
      FlushBuffer();
      FlushPending();
    }

    /** Headings change only while the buffer is empty, the section only when nothing is held back either. */
    method SetHeadings(h: Headings)
      requires Valid() && buffer == []
      requires (h.section == headings.section && h.sectionNumber == headings.sectionNumber) || held == []
      modifies this`headings
      ensures Valid() && Now() == old(Now()).(headings := h)
    {
      NothingBuffered(log, units, held, headings, h);
      headings := h;
    }

    method Buffer(text: string)
      requires Valid()
      modifies this
      ensures Valid() && log == old(log) + [(text, headings)]
      ensures Now() == old(Now()).(buffer := old(buffer) + [text])
    {
      OneMoreAccounted(log, units, held, headings, buffer, text);
      buffer := buffer + [text];
      log := log + [(text, headings)];
    }

    method TakeParagraph(p: Paragraph)
      requires Valid()
      modifies this
      ensures Valid() && Now() == Advanced(tools, old(Now()), Para(p))
      ensures log == old(log) + EntriesOfElement(tools, headings, Para(p))
    {
      var text := Trim(tools.isSpace, p.text);
      if text == "" {
        AdvancedBlank(tools, Now(), p);
      } else if IsDecimal(p) {
        TakeNumbered(p, text);
      } else if p.level.Some? && p.level.value != 0 {
        TakeHeading(p, text);
      } else if p.boldHeading {
        AdvancedPastEnd(tools, Now(), p);
        FlushAll();
        SetHeadings(Headings(text, "", "", ""));
      } else {
        TakeBody(p, text);
      }
    }

    /** A decimal number opens a section at the top level and a clause below it. */
    method TakeNumbered(p: Paragraph, text: string)
      requires Valid() && text == Trim(tools.isSpace, p.text) && text != "" && IsDecimal(p)
      modifies this
      ensures Valid() && Now() == Advanced(tools, old(Now()), Para(p))
      ensures log == old(log) + Entries(headings, BufferedText(tools, p))
    {
      var number := StripDots(p.number.value.resolved);
      AdvancedPastEnd(tools, Now(), p);
      FlushAll();
      if Depth(number) == 1 {
        SetHeadings(Headings(if p.boldName != "" then p.boldName else ShortName(tools, text), number, "", ""));
      } else {
        SetHeadings(headings.(clause := if p.boldName != "" then p.boldName else text, clauseNumber := number));
        Buffer(p.number.value.resolved + " " + text);
      }
    }

    method TakeHeading(p: Paragraph, text: string)
      requires Valid() && text == Trim(tools.isSpace, p.text) && text != ""
      requires !IsDecimal(p) && p.level.Some? && p.level.value != 0
      modifies this
      ensures Valid() && Now() == Advanced(tools, old(Now()), Para(p))
      ensures log == old(log) + Entries(headings, BufferedText(tools, p))
    {
      AdvancedPastEnd(tools, Now(), p);
      FlushAll();
      if p.level.value == 1 {
        SetHeadings(Headings(text, "", "", ""));
      } else if p.level.value == 2 {
        SetHeadings(headings.(clause := text, clauseNumber := ""));
      }
    }

    /** Body text: a clause number or a label at its start begins a new buffer. */
    method TakeBody(p: Paragraph, text: string)
      requires Valid() && text == Trim(tools.isSpace, p.text) && text != "" && !EndsUnit(tools, p)
      modifies this
      ensures Valid() && Now() == Advanced(tools, old(Now()), Para(p))
      ensures log == old(log) + [(text, headings)]
    {
      AdvancedInside(tools, Now(), p, text);
      var number := tools.clauseNumberOf(text);
      if number == "" {
        var found := tools.labelOf(text);
        if found != "" && p.listParagraph && headings.clauseNumber == "" {
          FlushBuffer();
          SetHeadings(headings.(clause := found, clauseNumber := ""));
        }
      } else {
        if buffer != [] {
          FlushBuffer();
        }
        SetHeadings(headings.(clauseNumber := number));
      }
      Buffer(text);
    }

    method TakeTable(text: string)
      requires Valid()
      modifies this
      ensures Valid() && Now() == Advanced(tools, old(Now()), Table(text))
      ensures log == old(log) + EntriesOfElement(tools, headings, Table(text))
    {
      AdvancedTable(tools, Now(), text);
      if text != "" {
        Buffer(text);
      } else {
        assert log + [] == log;
      }
    }

    method Take(e: Element)
      requires Valid()
      modifies this
      ensures Valid() && Now() == Took(tools, old(Now()), e)
      ensures log == old(log) + EntriesOfElement(tools, headings, e)
    {
      AdvancedTakesOne(tools, Now(), e);
      if e.Para? {
        TakeParagraph(e.p);
      } else {
        TakeTable(e.text);
      }
      CountOne();
    }

    /** One element more taken. */
    ghost method CountOne()
      requires Valid()
      modifies this`taken
      ensures Valid() && Now() == old(Now()).(taken := old(taken) + 1)
    {
      taken := taken + 1;
    }

    /** A whole document: every character of every buffered text that is not white
        space is in exactly one chunk, in order, under the section it came in. */
    method Parse(body: seq<Element>)
      requires Valid() && log == [] && Now() == Start() && Sane(tools)
      modifies this
      ensures Valid() && buffer == [] && held == [] && units == UnitsOf(tools, body) && AllSized(tools, units)
      ensures log == TextOf(tools, body) && headings == HeadingsAfter(tools, body)
      ensures Shown(chunks) == Emitted(tools, units) && Taken(units) == TextOf(tools, body)
      ensures InkOf(tools, Shown(chunks)) == InkOf(tools, TextOf(tools, body))
    {
      for i := 0 to |body|
        invariant Valid() && Now() == StateAfter(tools, body[..i])
        invariant log == TextOf(tools, body[..i])
      {
        assert body[..i + 1][..i] == body[..i];
        StateHeadings(tools, body[..i + 1]);
        Take(body[i]);
      }
      assert body[..|body|] == body;
      StateHeadings(tools, body);
      FlushAll();
      assert Accounted(log, units, [], headings, []);
      assert EntriesOf([]) + Under(headings, []) == [];
      assert ShownAs(tools, chunks, units);
      EmittedKeepsInk(tools, units);
    }
  }
}
