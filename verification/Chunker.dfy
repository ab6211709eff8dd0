// The buffering chunker inside parse_docx (ingest/parsers/docx_parser.py): text
// is buffered, flushed at section and clause boundaries, small pieces are held
// back and joined, and oversized text is split between sentences.

module Chunker {
  import opened Wrappers
  import opened Strings
  import opened VisibleText

  // ----- Splitting oversized text

  /** Rough token estimate. */
  function Estimate(text: string): nat {
    |text| / 4
  }

  function SumEstimate(ss: seq<string>): nat {
    if ss == [] then 0 else SumEstimate(ss[..|ss| - 1]) + Estimate(ss[|ss| - 1])
  }

  function JoinSpace(ss: seq<string>): string {
    if ss == [] then ""
    else if |ss| == 1 then ss[0]
    else JoinSpace(ss[..|ss| - 1]) + " " + ss[|ss| - 1]
  }

  function Flatten<T>(groups: seq<seq<T>>): seq<T> {
    if groups == [] then [] else Flatten(groups[..|groups| - 1]) + groups[|groups| - 1]
  }

  lemma FlattenLast<T>(groups: seq<seq<T>>, g: seq<T>)
    ensures Flatten(groups + [g]) == Flatten(groups) + g
  {
    assert (groups + [g])[..|groups|] == groups;
  }

  /** One sentence, or sentences whose estimates together stay within the limit. */
  predicate Fits(g: seq<string>, max: nat) {
    g != [] && (|g| == 1 || SumEstimate(g) <= max)
  }

  /** A sentence joins the last part while that stays within the limit. */
  function Joined(p: seq<seq<string>>, s: string, max: nat): (groups: seq<seq<string>>)
    ensures groups != []
  {
    if p != [] && SumEstimate(p[|p| - 1]) + Estimate(s) <= max then p[..|p| - 1] + [p[|p| - 1] + [s]] else p + [[s]]
  }

  /** Sentences grouped into parts. */
  function Grouped(ss: seq<string>, max: nat): (groups: seq<seq<string>>)
    ensures ss == [] <==> groups == []
  {
    if ss == [] then [] else Joined(Grouped(ss[..|ss| - 1], max), ss[|ss| - 1], max)
  }

  lemma SumOneMore(g: seq<string>, s: string)
    ensures SumEstimate(g + [s]) == SumEstimate(g) + Estimate(s)
  {
    assert (g + [s])[..|g|] == g;
  }

  lemma Regroup<T>(a: seq<T>, b: seq<T>, c: seq<T>)
    ensures a + (b + c) == a + b + c
  {
  }

  lemma FlattenLonger<T>(q: seq<seq<T>>, g: seq<T>, x: T)
    ensures Flatten(q + [g + [x]]) == Flatten(q + [g]) + [x]
  {
    FlattenLast(q, g + [x]);
    FlattenLast(q, g);
    Regroup(Flatten(q), g, [x]);
  }

  lemma JoinedHolds(p: seq<seq<string>>, s: string, max: nat)
    ensures Flatten(Joined(p, s, max)) == Flatten(p) + [s]
  {
    if p != [] && SumEstimate(p[|p| - 1]) + Estimate(s) <= max {
      var q, g := p[..|p| - 1], p[|p| - 1];
      assert p == q + [g];
      FlattenLonger(q, g, s);
    } else {
      FlattenLast(p, [s]);
    }
  }

  /** The parts hold the sentences, all of them and in order. */
  lemma {:induction false} GroupedKeepsSentences(ss: seq<string>, max: nat)
    ensures Flatten(Grouped(ss, max)) == ss
  {
    if ss != [] {
      var n := |ss| - 1;
      GroupedKeepsSentences(ss[..n], max);
      JoinedHolds(Grouped(ss[..n], max), ss[n], max);
      assert ss == ss[..n] + [ss[n]];
    }
  }

  /** Each part is one sentence, or sentences whose estimates together stay within the limit. */
  lemma {:induction false} GroupedFits(ss: seq<string>, max: nat)
    ensures AllFit(Grouped(ss, max), max)
  {
    if ss != [] {
      var n := |ss| - 1;
      GroupedFits(ss[..n], max);
      JoinedFits(Grouped(ss[..n], max), ss[n], max);
    }
  }

  predicate AllFit(groups: seq<seq<string>>, max: nat) {
    forall i :: 0 <= i < |groups| ==> Fits(groups[i], max)
  }

  lemma JoinedFits(p: seq<seq<string>>, s: string, max: nat)
    requires AllFit(p, max)
    ensures AllFit(Joined(p, s, max), max)
  {
    if p != [] {
      SumOneMore(p[|p| - 1], s);
    }
  }

  /** The next part's first sentence would not have fitted into part i. */
  predicate FullAt(groups: seq<seq<string>>, max: nat, i: nat) {
    && i + 1 < |groups| && groups[i + 1] != []
    && SumEstimate(groups[i]) + Estimate(groups[i + 1][0]) > max
  }

  /** And each is as long as it can be. */
  lemma {:induction false} GroupedIsGreedy(ss: seq<string>, max: nat, i: nat)
    requires i + 1 < |Grouped(ss, max)|
    ensures FullAt(Grouped(ss, max), max, i)
  {
    var n := |ss| - 1;
    var p := Grouped(ss[..n], max);
    GroupedFits(ss[..n], max);
    if i + 1 < |p| {
      GroupedIsGreedy(ss[..n], max, i);
    }
    JoinedIsGreedy(p, ss[n], max, i);
  }

  lemma JoinedIsGreedy(p: seq<seq<string>>, s: string, max: nat, i: nat)
    requires i + 1 < |Joined(p, s, max)| && (i + 1 < |p| ==> FullAt(p, max, i))
    ensures FullAt(Joined(p, s, max), max, i)
  {
    var g := Joined(p, s, max);
    if i + 1 < |p| {
      assert g[i] == p[i] && g[i + 1][0] == p[i + 1][0];
    } else {
      assert g == p + [[s]] && g[i] == p[i] && g[i + 1] == [s];
    }
  }

  function JoinEach(groups: seq<seq<string>>): (parts: seq<string>)
    ensures |parts| == |groups| && forall i :: 0 <= i < |groups| ==> parts[i] == JoinSpace(groups[i])
  {
    seq(|groups|, i requires 0 <= i < |groups| => JoinSpace(groups[i]))
  }

  lemma JoinEachMore(groups: seq<seq<string>>, g: seq<string>)
    ensures JoinEach(groups + [g]) == JoinEach(groups) + [JoinSpace(g)]
  {
  }

  lemma SumOfOne(s: string)
    ensures SumEstimate([s]) == Estimate(s)
  {
    SumOneMore([], s);
    assert [] + [s] == [s];
  }

  /** Text cut at each run of white space that follows a sentence's end mark. */
  function Sentences(isSpace: char -> bool, s: string, afterEnd: bool): (ss: seq<string>)
    ensures ss != []
    decreases |s|
  {
    if s == [] then [""]
    else if afterEnd && isSpace(s[0]) then [""] + Sentences(isSpace, s[RunLength(isSpace, s)..], false)
    else
      var rest := Sentences(isSpace, s[1..], s[0] in ".!?");
      [[s[0]] + rest[0]] + rest[1..]
  }

  /** The text itself when within the limit, its sentences regrouped otherwise. */
  function Split(isSpace: char -> bool, text: string, max: nat): seq<string> {
    if Estimate(text) <= max then [text] else JoinEach(Grouped(Sentences(isSpace, text, false), max))
  }

  method SplitOversized(isSpace: char -> bool, text: string, max: nat) returns (parts: seq<string>)
    ensures parts == Split(isSpace, text, max)
  {
    if Estimate(text) <= max {
      return [text];
    }
    var sentences := Sentences(isSpace, text, false);
    parts := [];
    var current: seq<string> := [];
    var currentLen := 0;
    ghost var groups: seq<seq<string>> := [];
    for i := 0 to |sentences|
      invariant parts == JoinEach(groups) && currentLen == SumEstimate(current)
      invariant (current == [] <==> i == 0) && (current == [] ==> groups == [])
      invariant Grouped(sentences[..i], max) == if current == [] then [] else groups + [current]
    {
      var s := sentences[i];
      GroupedStep(sentences, i, max, groups, current);
      SumOneMore(current, s);
      SumOfOne(s);
      if current != [] && currentLen + Estimate(s) > max {
        JoinEachMore(groups, current);
        parts := parts + [JoinSpace(current)];
        groups := groups + [current];
        current := [s];
        currentLen := Estimate(s);
      } else {
        current := current + [s];
        currentLen := currentLen + Estimate(s);
      }
    }
    assert sentences[..|sentences|] == sentences;
    if current != [] {
      JoinEachMore(groups, current);
      parts := parts + [JoinSpace(current)];
    }
  }

  lemma GroupedStep(ss: seq<string>, i: nat, max: nat, groups: seq<seq<string>>, current: seq<string>)
    requires i < |ss|
    requires Grouped(ss[..i], max) == if current == [] then [] else groups + [current]
    requires current == [] ==> groups == []
    ensures Grouped(ss[..i + 1], max) ==
            if current != [] && SumEstimate(current) + Estimate(ss[i]) > max then groups + [current] + [[ss[i]]]
            else groups + [current + [ss[i]]]
  {
    assert ss[..i + 1][..i] == ss[..i];
    if current == [] {
      assert current + [ss[i]] == [ss[i]];
    } else {
      assert (groups + [current])[..|groups|] == groups;
      assert Grouped(ss[..i], max)[|groups|] == current;
    }
  }

  /** Characters the estimates of single sentences leave out. */
  function Leftover(ss: seq<string>): nat {
    if ss == [] then 0 else Leftover(ss[..|ss| - 1]) + |ss[|ss| - 1]| % 4
  }

  lemma {:induction false} JoinedLength(g: seq<string>)
    requires g != []
    ensures |JoinSpace(g)| == 4 * SumEstimate(g) + Leftover(g) + |g| - 1
    ensures Leftover(g) <= 3 * |g|
  {
    var init, last := g[..|g| - 1], g[|g| - 1];
    assert |last| == 4 * Estimate(last) + |last| % 4;
    assert SumEstimate(g) == SumEstimate(init) + Estimate(last);
    if |g| == 1 {
      assert JoinSpace(g) == last;
    } else {
      JoinedLength(init);
      assert JoinSpace(g) == JoinSpace(init) + " " + last;
    }
  }

  /** A part exceeds the limit exactly when what its sentences' estimates leave
      out, and the spaces between them, make up what they fall short of it. */
  lemma PartExceedsIff(g: seq<string>, max: nat)
    requires g != []
    ensures Estimate(JoinSpace(g)) > max <==> Leftover(g) + |g| - 1 >= 4 * (max - SumEstimate(g)) + 4
  {
    JoinedLength(g);
  }

  /** A part is one sentence as it stands, or above the limit by less than its number of sentences. */
  lemma PartIsBounded(g: seq<string>, max: nat)
    requires Fits(g, max)
    ensures JoinSpace(g) == g[0] || Estimate(JoinSpace(g)) <= max + |g| - 1
  {
    JoinedLength(g);
  }

  /** A sentence without white space inside ends at its end mark. */
  lemma {:induction false} SentenceEnds(isSpace: char -> bool, a: string, rest: string, afterEnd: bool)
    requires (forall k :: 0 <= k < |a| ==> !isSpace(a[k])) && isSpace(' ') && (rest != [] ==> !isSpace(rest[0]))
    requires if a == [] then afterEnd else a[|a| - 1] in ".!?"
    ensures Sentences(isSpace, a + " " + rest, afterEnd) == [a] + Sentences(isSpace, rest, false)
    decreases |a|
  {
    var s := a + " " + rest;
    if a == [] {
      RunThen(isSpace, " ", rest);
      assert s == " " + rest && s[1..] == rest;
    } else {
      assert s[1..] == a[1..] + " " + rest;
      SentenceEnds(isSpace, a[1..], rest, s[0] in ".!?");
      assert [s[0]] + a[1..] == a;
    }
  }

  lemma {:induction false} LastSentence(isSpace: char -> bool, a: string, afterEnd: bool)
    requires forall k :: 0 <= k < |a| ==> !isSpace(a[k])
    ensures Sentences(isSpace, a, afterEnd) == [a]
    decreases |a|
  {
    if a != [] {
      LastSentence(isSpace, a[1..], a[0] in ".!?");
      assert [a[0]] + a[1..] == a;
    }
  }

  /** Sentences that fit together are one part. */
  lemma {:induction false} OnePart(ss: seq<string>, max: nat)
    requires ss != [] && SumEstimate(ss) <= max
    ensures Grouped(ss, max) == [ss]
  {
    var init, last := ss[..|ss| - 1], ss[|ss| - 1];
    assert ss == init + [last];
    if init != [] {
      OnePart(init, max);
      assert Grouped(init, max)[..0] == [];
    }
  }

  /** A word with an end mark, and three more sentences. */
  predicate Word(isSpace: char -> bool, w: string) {
    w != [] && (forall k :: 0 <= k < |w| ==> !isSpace(w[k])) && w[|w| - 1] in ".!?"
  }

  lemma FourSentences(isSpace: char -> bool, a: string, b: string, c: string, d: string)
    requires isSpace(' ') && Word(isSpace, a) && Word(isSpace, b) && Word(isSpace, c) && Word(isSpace, d)
    ensures Sentences(isSpace, a + " " + (b + " " + (c + " " + d)), false) == [a, b, c, d]
  {
    LastSentence(isSpace, d, false);
    SentenceEnds(isSpace, c, d, false);
    SentenceEnds(isSpace, b, c + " " + d, false);
    SentenceEnds(isSpace, a, b + " " + (c + " " + d), false);
  }

  lemma FourJoined(a: string, b: string, c: string, d: string)
    ensures JoinSpace([a, b, c, d]) == a + " " + (b + " " + (c + " " + d))
    ensures SumEstimate([a, b, c, d]) == Estimate(a) + Estimate(b) + Estimate(c) + Estimate(d)
  {
    SumOfOne(a);
    SumOneMore([a], b);
    SumOneMore([a, b], c);
    SumOneMore([a, b, c], d);
    assert [a] + [b] == [a, b] && [a, b] + [c] == [a, b, c] && [a, b, c] + [d] == [a, b, c, d];
    assert [a, b][..1] == [a] && [a, b, c][..2] == [a, b] && [a, b, c, d][..3] == [a, b, c];
    assert JoinSpace([a, b]) == a + " " + b;
    assert JoinSpace([a, b, c]) == a + " " + b + " " + c;
    assert JoinSpace([a, b, c, d]) == a + " " + b + " " + c + " " + d;
  }

  /** Four words of up to three characters are estimated at nothing, so they stay one part however low the limit. */
  lemma FourStayTogether(isSpace: char -> bool, a: string, b: string, c: string, d: string, max: nat)
    requires isSpace(' ') && Word(isSpace, a) && Word(isSpace, b) && Word(isSpace, c) && Word(isSpace, d)
    requires |a| < 4 && |b| < 4 && |c| < 4 && |d| < 4
    ensures var text := a + " " + (b + " " + (c + " " + d));
            Split(isSpace, text, max) == [text]
  {
    FourSentences(isSpace, a, b, c, d);
    FourJoined(a, b, c, d);
    OnePart([a, b, c, d], max);
  }

  /** Text above the limit can come back whole. */
  lemma PartMayExceed()
    ensures Split(ch => ch == ' ', "Ab. Cd. Ef. Gh.", 2) == ["Ab. Cd. Ef. Gh."] && Estimate("Ab. Cd. Ef. Gh.") == 3
  {
    var isSpace := ch => ch == ' ';
    FourStayTogether(isSpace, "Ab.", "Cd.", "Ef.", "Gh.", 2);
    assert "Ab." + " " + ("Cd." + " " + ("Ef." + " " + "Gh.")) == "Ab. Cd. Ef. Gh.";
  }

  // ----- The buffers

  datatype Headings = Headings(section: string, sectionNumber: string, clause: string, clauseNumber: string)

  datatype Chunk = Chunk(text: string, headings: Headings)

  /** A flushed buffer, the headings its texts came in under, and how many elements came before its flush. */
  datatype Held = Held(texts: seq<string>, came: Headings, upto: nat)

  /** What one flush turns into chunks: the buffers it took, oldest first, the
      headings then current, and how many elements came before. */
  datatype Unit = Unit(buffers: seq<Held>, at: Headings, upto: nat)

  /** A buffered text and the headings current when it was buffered. */
  type Entry = (string, Headings)

  /** The settings, and what finds a clause number or a label at a text's start ("" for none). */
  datatype Tools = Tools(isSpace: char -> bool, minTokens: nat, maxTokens: nat,
                         clauseNumberOf: string -> string, labelOf: string -> string)

  function BufferText(t: Tools, buffer: seq<string>): string {
    Trim(t.isSpace, JoinLines(buffer))
  }

  /** The texts of the buffers that hold any. */
  function Visible(t: Tools, buffers: seq<Held>): seq<string> {
    if buffers == [] then []
    else
      var p := Visible(t, buffers[..|buffers| - 1]);
      var text := BufferText(t, buffers[|buffers| - 1].texts);
      if text == "" then p else p + [text]
  }

  /** The first clause number a buffer that holds any text came in under. */
  function FirstNumber(t: Tools, buffers: seq<Held>): string {
    if buffers == [] then ""
    else
      var p := FirstNumber(t, buffers[..|buffers| - 1]);
      var last := buffers[|buffers| - 1];
      if p != "" || BufferText(t, last.texts) == "" then p else last.came.clauseNumber
  }

  /** A chunk carries the current clause number, or else the one given. */
  function ChunkHeadings(h: Headings, clauseNumber: string): Headings {
    if h.clauseNumber != "" then h else h.(clauseNumber := clauseNumber)
  }

  /** The headings a unit's chunks carry. */
  function Carried(t: Tools, u: Unit): Headings {
    ChunkHeadings(u.at, FirstNumber(t, u.buffers))
  }

  /** Below the limit under which a buffer is held back rather than emitted alone. */
  predicate Small(t: Tools, buffer: seq<string>) {
    BufferText(t, buffer) == "" || Estimate(BufferText(t, buffer)) < t.minTokens
  }

  predicate AllSmall(t: Tools, buffers: seq<Held>) {
    forall i :: 0 <= i < |buffers| ==> Small(t, buffers[i].texts)
  }

  predicate SameSection(buffers: seq<Held>, h: Headings) {
    forall i :: 0 <= i < |buffers| ==>
      buffers[i].came.section == h.section && buffers[i].came.sectionNumber == h.sectionNumber
  }

  /** A unit is one buffer that is not small, under the headings it came in
      under, or small buffers joined; all of one section. */
  predicate Sized(t: Tools, u: Unit) {
    && (AllSmall(t, u.buffers) || (|u.buffers| == 1 && !Small(t, u.buffers[0].texts) && u.buffers[0].came == u.at))
    && SameSection(u.buffers, u.at)
  }

  predicate AllSized(t: Tools, units: seq<Unit>) {
    forall i :: 0 <= i < |units| ==> Sized(t, units[i])
  }

  lemma SizedMore(t: Tools, units: seq<Unit>, u: Unit)
    requires AllSized(t, units) && Sized(t, u)
    ensures AllSized(t, units + [u])
  {
  }

  function UnitText(t: Tools, u: Unit): string {
    Trim(t.isSpace, JoinLines(Visible(t, u.buffers)))
  }

  function Under(h: Headings, texts: seq<string>): (es: seq<Entry>)
    ensures |es| == |texts| && forall i :: 0 <= i < |texts| ==> es[i] == (texts[i], h)
  {
    seq(|texts|, i requires 0 <= i < |texts| => (texts[i], h))
  }

  /** Every text of the buffers with the headings it came in under. */
  function EntriesOf(buffers: seq<Held>): seq<Entry> {
    if buffers == [] then []
    else EntriesOf(buffers[..|buffers| - 1]) + Under(buffers[|buffers| - 1].came, buffers[|buffers| - 1].texts)
  }

  /** Every text a list of units took. */
  function Taken(units: seq<Unit>): seq<Entry> {
    if units == [] then []
    else Taken(units[..|units| - 1]) + EntriesOf(units[|units| - 1].buffers)
  }

  /** What a chunk shows: its text and its headings. */
  function Shown(chunks: seq<Chunk>): (r: seq<Entry>)
    ensures |r| == |chunks| && forall i :: 0 <= i < |chunks| ==> r[i] == (chunks[i].text, chunks[i].headings)
  {
    seq(|chunks|, i requires 0 <= i < |chunks| => (chunks[i].text, chunks[i].headings))
  }

  function TrimEach(t: Tools, parts: seq<string>): (r: seq<string>)
    ensures |r| == |parts| && forall i :: 0 <= i < |parts| ==> r[i] == Trim(t.isSpace, parts[i])
  {
    seq(|parts|, i requires 0 <= i < |parts| => Trim(t.isSpace, parts[i]))
  }

  /** The chunks of one text under its headings. */
  function Pieces(t: Tools, text: string, h: Headings): seq<Entry> {
    if text == "" then [] else Under(h, TrimEach(t, Split(t.isSpace, text, t.maxTokens)))
  }

  /** The units' texts, split, in order, each under what its unit carries. */
  function Emitted(t: Tools, units: seq<Unit>): seq<Entry> {
    if units == [] then []
    else Emitted(t, units[..|units| - 1]) + Pieces(t, UnitText(t, units[|units| - 1]), Carried(t, units[|units| - 1]))
  }

  lemma PiecesOf(t: Tools, text: string, h: Headings, parts: seq<string>)
    requires text != "" && parts == Split(t.isSpace, text, t.maxTokens)
    ensures Pieces(t, text, h) == Under(h, TrimEach(t, parts))
  {
  }

  lemma ShownMore(chunks: seq<Chunk>, c: Chunk, i: nat, shown: seq<Entry>, before: seq<Entry>)
    requires i < |shown| && shown[i] == (c.text, c.headings)
    requires Shown(chunks) == before + shown[..i]
    ensures Shown(chunks + [c]) == before + shown[..i + 1]
  {
    assert before + shown[..i + 1] == (before + shown[..i]) + [shown[i]];
    assert Shown(chunks + [c]) == Shown(chunks) + [shown[i]];
  }

  lemma EmittedMore(t: Tools, units: seq<Unit>, u: Unit)
    ensures Emitted(t, units + [u]) == Emitted(t, units) + Pieces(t, UnitText(t, u), Carried(t, u))
  {
    assert (units + [u])[..|units|] == units;
  }

  lemma TakenMore(units: seq<Unit>, u: Unit)
    ensures Taken(units + [u]) == Taken(units) + EntriesOf(u.buffers)
  {
    assert (units + [u])[..|units|] == units;
  }

  lemma EntriesMore(buffers: seq<Held>, b: Held)
    ensures EntriesOf(buffers + [b]) == EntriesOf(buffers) + Under(b.came, b.texts)
  {
    assert (buffers + [b])[..|buffers|] == buffers;
  }

  lemma UnderAppend(h: Headings, a: seq<string>, b: seq<string>)
    ensures Under(h, a + b) == Under(h, a) + Under(h, b)
  {
  }

  // ----- What the document says

  /** A list number as resolved, and whether its format is decimal. */
  datatype Number = Number(decimal: bool, resolved: string)

  /** A paragraph: its text, list number, heading level from its style, name from
      its leading bold runs, and whether it looks like a bold heading or a list paragraph. */
  datatype Paragraph = Paragraph(text: string, number: Option<Number>, level: Option<int>,
                                 boldName: string, boldHeading: bool, listParagraph: bool)

  datatype Element = Para(p: Paragraph) | Table(text: string)

  function NoHeadings(): Headings {
    Headings("", "", "", "")
  }

  predicate IsDecimal(p: Paragraph) {
    p.number.Some? && p.number.value.decimal
  }

  function StripDots(s: string): string {
    if s != [] && s[|s| - 1] == '.' then StripDots(s[..|s| - 1]) else s
  }

  /** Dotted parts of a number. */
  function Depth(s: string): nat {
    if s == [] then 1 else (if s[0] == '.' then 1 else 0) + Depth(s[1..])
  }

  function WordCount(isSpace: char -> bool, s: string): nat {
    if s == [] then 0
    else WordCount(isSpace, s[1..]) + if !isSpace(s[0]) && (|s| == 1 || isSpace(s[1])) then 1 else 0
  }

  function Before(s: string, stop: char): string {
    if s == [] || s[0] == stop then [] else [s[0]] + Before(s[1..], stop)
  }

  /** A long paragraph's section name ends at its first colon, comma or full stop, in that order of preference. */
  function ShortName(t: Tools, raw: string): string {
    if WordCount(t.isSpace, raw) <= 8 then raw
    else if ':' in raw then Trim(t.isSpace, Before(raw, ':'))
    else if ',' in raw then Trim(t.isSpace, Before(raw, ','))
    else if '.' in raw then Trim(t.isSpace, Before(raw, '.'))
    else raw
  }

  function BodyHeadings(t: Tools, h: Headings, p: Paragraph, text: string): Headings {
    if t.clauseNumberOf(text) != "" then h.(clauseNumber := t.clauseNumberOf(text))
    else if t.labelOf(text) != "" && p.listParagraph && h.clauseNumber == "" then h.(clause := t.labelOf(text))
    else h
  }

  function NextHeadings(t: Tools, h: Headings, p: Paragraph): Headings {
    var text := Trim(t.isSpace, p.text);
    if text == "" then h
    else if IsDecimal(p) then
      var number := StripDots(p.number.value.resolved);
      if Depth(number) == 1 then Headings(if p.boldName != "" then p.boldName else ShortName(t, text), number, "", "")
      else h.(clause := if p.boldName != "" then p.boldName else text, clauseNumber := number)
    else if p.level.Some? && p.level.value != 0 then
      if p.level.value == 1 then Headings(text, "", "", "")
      else if p.level.value == 2 then h.(clause := text, clauseNumber := "")
      else h
    else if p.boldHeading then Headings(text, "", "", "")
    else BodyHeadings(t, h, p, text)
  }

  function BufferedText(t: Tools, p: Paragraph): Option<string> {
    var text := Trim(t.isSpace, p.text);
    if text == "" then None
    else if IsDecimal(p) then
      if Depth(StripDots(p.number.value.resolved)) == 1 then None else Some(p.number.value.resolved + " " + text)
    else if (p.level.Some? && p.level.value != 0) || p.boldHeading then None
    else Some(text)
  }

  function Entries(h: Headings, text: Option<string>): seq<Entry> {
    match text
    case None => []
    case Some(s) => [(s, h)]
  }

  function HeadingsAfter(t: Tools, body: seq<Element>): Headings {
    if body == [] then NoHeadings()
    else
      var h := HeadingsAfter(t, body[..|body| - 1]);
      match body[|body| - 1]
      case Para(p) => NextHeadings(t, h, p)
      case Table(_) => h
  }

  function EntriesOfElement(t: Tools, h: Headings, e: Element): seq<Entry> {
    match e
    case Para(p) => Entries(h, BufferedText(t, p))
    case Table(text) => Entries(h, if text == "" then None else Some(text))
  }

  /** The texts a document buffers, each with the headings it stands under. */
  function TextOf(t: Tools, body: seq<Element>): seq<Entry> {
    if body == [] then []
    else TextOf(t, body[..|body| - 1]) + EntriesOfElement(t, HeadingsAfter(t, body), body[|body| - 1])
  }

  /** Paragraphs that open a section: top-level decimal numbers, level-1 headings, bold headings. */
  predicate Opens(t: Tools, e: Element) {
    e.Para? && Trim(t.isSpace, e.p.text) != "" &&
    if IsDecimal(e.p) then Depth(StripDots(e.p.number.value.resolved)) == 1
    else if e.p.level.Some? && e.p.level.value != 0 then e.p.level.value == 1
    else e.p.boldHeading
  }

  /** A section lasts from the element that opens it until the next that opens one. */
  lemma {:induction false} SectionLasts(t: Tools, body: seq<Element>, i: nat)
    requires i < |body| && Opens(t, body[i])
    requires forall j :: i < j < |body| ==> !Opens(t, body[j])
    ensures HeadingsAfter(t, body).section == NextHeadings(t, NoHeadings(), body[i].p).section
    ensures HeadingsAfter(t, body).sectionNumber == NextHeadings(t, NoHeadings(), body[i].p).sectionNumber
    decreases |body|
  {
    var init := body[..|body| - 1];
    if i < |init| {
      assert init[i] == body[i];
      SectionLasts(t, init, i);
      assert !Opens(t, body[|init|]);
    }
  }

  /** The whole text of a paragraph ends a buffered text, or becomes the section or the clause. */
  ghost predicate KeptWhole(t: Tools, p: Paragraph) {
    var text := Trim(t.isSpace, p.text);
    || (BufferedText(t, p).Some? && IsSuffix(text, BufferedText(t, p).value))
    || (forall h: Headings :: NextHeadings(t, h, p).section == text)
    || (forall h: Headings :: NextHeadings(t, h, p).clause == text)
  }

  predicate IsSuffix(s: string, t: string) {
    |s| <= |t| && t[|t| - |s|..] == s
  }

  predicate TopLevel(p: Paragraph) {
    IsDecimal(p) && Depth(StripDots(p.number.value.resolved)) == 1
  }

  /** What names the section a top-level decimal paragraph opens. */
  function SectionName(t: Tools, p: Paragraph): string {
    if p.boldName != "" then p.boldName else ShortName(t, Trim(t.isSpace, p.text))
  }

  /** Text is lost, in whole or in part, exactly when the paragraph's style is a
      heading below level 2 and its number is not decimal, or it is a top-level
      decimal paragraph whose section takes a shorter name from it. */
  lemma LostIff(t: Tools, p: Paragraph)
    requires Trim(t.isSpace, p.text) != ""
    ensures !KeptWhole(t, p) <==>
            || (!IsDecimal(p) && p.level.Some? && p.level.value !in {0, 1, 2})
            || (TopLevel(p) && SectionName(t, p) != Trim(t.isSpace, p.text))
  {
    var text := Trim(t.isSpace, p.text);
    var h := Headings("", "", "", "");
    assert text != "";
    if BufferedText(t, p).Some? {
      var b := BufferedText(t, p).value;
      assert b == text || b == p.number.value.resolved + " " + text;
      assert IsSuffix(text, b);
    } else {
      assert NextHeadings(t, h, p).section == text || NextHeadings(t, h, p).clause == text ==> KeptWhole(t, p);
      assert KeptWhole(t, p) ==> NextHeadings(t, h, p).section == text || NextHeadings(t, h, p).clause == text;
    }
  }

  /** A top-level decimal paragraph keeps its bold name only. */
  lemma TopLevelLosesTheRest(t: Tools, p: Paragraph, number: string)
    requires p.number == Some(Number(true, number)) && Depth(StripDots(number)) == 1
    requires p.boldName != "" && Trim(t.isSpace, p.text) !in {"", p.boldName}
    ensures BufferedText(t, p) == None
    ensures forall h: Headings :: NextHeadings(t, h, p) == Headings(p.boldName, StripDots(number), "", "")
    ensures !KeptWhole(t, p)
  {
    LostIff(t, p);
  }

  // ----- Nothing visible is lost or repeated

  predicate Sane(t: Tools) {
    t.isSpace(' ') && t.isSpace('\n')
  }

  lemma {:induction false} InkOfJoinSpace(isSpace: char -> bool, g: seq<string>)
    requires isSpace(' ')
    ensures Ink(isSpace, JoinSpace(g)) == InkAll(isSpace, g)
  {
    if |g| == 1 {
      InkAllOne(isSpace, g[0]);
      assert g == [g[0]];
    } else if |g| > 1 {
      var init, last := g[..|g| - 1], g[|g| - 1];
      InkOfJoinSpace(isSpace, init);
      InkOfSpace(isSpace, ' ');
      InkBetween(isSpace, JoinSpace(init), " ", last);
      InkAllAppend(isSpace, init, [last]);
      InkAllOne(isSpace, last);
      assert g == init + [last];
    }
  }

  lemma {:induction false} InkOfJoinEach(isSpace: char -> bool, groups: seq<seq<string>>)
    requires isSpace(' ')
    ensures InkAll(isSpace, JoinEach(groups)) == InkAll(isSpace, Flatten(groups))
  {
    if groups != [] {
      var init, last := groups[..|groups| - 1], groups[|groups| - 1];
      InkOfJoinEach(isSpace, init);
      assert JoinEach(groups) == JoinEach(init) + [JoinSpace(last)];
      InkAllAppend(isSpace, JoinEach(init), [JoinSpace(last)]);
      InkAllOne(isSpace, JoinSpace(last));
      InkOfJoinSpace(isSpace, last);
      InkAllAppend(isSpace, Flatten(init), last);
    }
  }

  lemma {:induction false} InkOfRun(isSpace: char -> bool, s: string, n: nat)
    requires n <= |s| && forall k :: 0 <= k < n ==> isSpace(s[k])
    ensures Ink(isSpace, s) == Ink(isSpace, s[n..])
  {
    if n > 0 {
      InkOfRun(isSpace, s[1..], n - 1);
      assert s[1..][n - 1..] == s[n..];
    }
  }

  lemma InkAllCons(isSpace: char -> bool, first: string, tail: seq<string>)
    ensures InkAll(isSpace, [first] + tail) == Ink(isSpace, first) + InkAll(isSpace, tail)
  {
    assert ([first] + tail)[1..] == tail;
  }

  lemma LongerFirst(isSpace: char -> bool, a: string, first: string, tail: seq<string>)
    ensures InkAll(isSpace, [a + first] + tail) == Ink(isSpace, a) + Ink(isSpace, first) + InkAll(isSpace, tail)
  {
    InkAllCons(isSpace, a + first, tail);
    InkAppend(isSpace, a, first);
  }

  lemma {:induction false} InkOfSentences(isSpace: char -> bool, s: string, afterEnd: bool)
    ensures InkAll(isSpace, Sentences(isSpace, s, afterEnd)) == Ink(isSpace, s)
    decreases |s|
  {
    if s == [] {
      InkAllOne(isSpace, "");
    } else if afterEnd && isSpace(s[0]) {
      var n := RunLength(isSpace, s);
      InkOfSentences(isSpace, s[n..], false);
      InkOfRun(isSpace, s, n);
      InkAllCons(isSpace, "", Sentences(isSpace, s[n..], false));
    } else {
      InkOfSentences(isSpace, s[1..], s[0] in ".!?");
      InkOfFirst(isSpace, s, Sentences(isSpace, s[1..], s[0] in ".!?"));
    }
  }

  lemma InkOfFirst(isSpace: char -> bool, s: string, rest: seq<string>)
    requires s != [] && rest != [] && InkAll(isSpace, rest) == Ink(isSpace, s[1..])
    ensures InkAll(isSpace, [[s[0]] + rest[0]] + rest[1..]) == Ink(isSpace, s)
  {
    LongerFirst(isSpace, [s[0]], rest[0], rest[1..]);
    InkCons(isSpace, s);
    Regroup(Ink(isSpace, [s[0]]), Ink(isSpace, rest[0]), InkAll(isSpace, rest[1..]));
  }

  lemma InkOfSplit(isSpace: char -> bool, text: string, max: nat)
    requires isSpace(' ')
    ensures InkAll(isSpace, Split(isSpace, text, max)) == Ink(isSpace, text)
  {
    var sentences := Sentences(isSpace, text, false);
    InkAllOne(isSpace, text);
    InkOfJoinEach(isSpace, Grouped(sentences, max));
    GroupedKeepsSentences(sentences, max);
    InkOfSentences(isSpace, text, false);
  }

  lemma {:induction false} InkOfTrimEach(t: Tools, parts: seq<string>)
    ensures InkAll(t.isSpace, TrimEach(t, parts)) == InkAll(t.isSpace, parts)
  {
    if parts != [] {
      InkOfTrimEach(t, parts[1..]);
      assert TrimEach(t, parts)[1..] == TrimEach(t, parts[1..]);
      InkOfTrim(t.isSpace, parts[0]);
    }
  }

  lemma InkOfBuffer(t: Tools, texts: seq<string>)
    requires Sane(t)
    ensures Ink(t.isSpace, BufferText(t, texts)) == InkAll(t.isSpace, texts)
  {
    InkOfTrim(t.isSpace, JoinLines(texts));
    InkOfJoinLines(t.isSpace, texts);
  }

  function Tagged(s: string, section: string): (r: seq<(char, string)>)
    ensures |r| == |s| && forall i :: 0 <= i < |s| ==> r[i] == (s[i], section)
  {
    seq(|s|, i requires 0 <= i < |s| => (s[i], section))
  }

  lemma TaggedAppend(a: string, b: string, section: string)
    ensures Tagged(a + b, section) == Tagged(a, section) + Tagged(b, section)
  {
  }

  /** Each visible character of the entries with its section. */
  function InkOf(t: Tools, es: seq<Entry>): seq<(char, string)> {
    if es == [] then [] else Tagged(Ink(t.isSpace, es[0].0), es[0].1.section) + InkOf(t, es[1..])
  }

  lemma {:induction false} InkOfAppend(t: Tools, a: seq<Entry>, b: seq<Entry>)
    ensures InkOf(t, a + b) == InkOf(t, a) + InkOf(t, b)
  {
    if a == [] {
      assert a + b == b;
    } else {
      assert (a + b)[1..] == a[1..] + b;
      InkOfAppend(t, a[1..], b);
    }
  }

  lemma {:induction false} InkOfUnder(t: Tools, h: Headings, texts: seq<string>)
    ensures InkOf(t, Under(h, texts)) == Tagged(InkAll(t.isSpace, texts), h.section)
  {
    if texts != [] {
      InkOfUnder(t, h, texts[1..]);
      assert Under(h, texts)[1..] == Under(h, texts[1..]);
      TaggedAppend(Ink(t.isSpace, texts[0]), InkAll(t.isSpace, texts[1..]), h.section);
    }
  }

  /** The texts of the buffers that hold any show every visible character of all of them. */
  lemma {:induction false} InkOfVisible(t: Tools, buffers: seq<Held>, h: Headings)
    requires Sane(t) && SameSection(buffers, h)
    ensures Tagged(InkAll(t.isSpace, Visible(t, buffers)), h.section) == InkOf(t, EntriesOf(buffers))
  {
    if buffers != [] {
      var init, last := buffers[..|buffers| - 1], buffers[|buffers| - 1];
      InkOfVisible(t, init, h);
      InkOfLast(t, Visible(t, init), last, EntriesOf(init), h);
    }
  }

  lemma InkOfLast(t: Tools, before: seq<string>, last: Held, es: seq<Entry>, h: Headings)
    requires Sane(t) && last.came.section == h.section
    requires Tagged(InkAll(t.isSpace, before), h.section) == InkOf(t, es)
    ensures var text := BufferText(t, last.texts);
            Tagged(InkAll(t.isSpace, if text == "" then before else before + [text]), h.section)
            == InkOf(t, es + Under(last.came, last.texts))
  {
    var text := BufferText(t, last.texts);
    InkOfBuffer(t, last.texts);
    InkOfUnder(t, last.came, last.texts);
    InkOfAppend(t, es, Under(last.came, last.texts));
    InkAllAppend(t.isSpace, before, [text]);
    InkAllOne(t.isSpace, text);
    TaggedAppend(InkAll(t.isSpace, before), Ink(t.isSpace, text), h.section);
    assert text == "" ==> Tagged(Ink(t.isSpace, text), h.section) == [];
  }

  lemma InkOfUnit(t: Tools, u: Unit)
    requires Sane(t) && Sized(t, u)
    ensures Tagged(Ink(t.isSpace, UnitText(t, u)), u.at.section) == InkOf(t, EntriesOf(u.buffers))
  {
    InkOfBuffer(t, Visible(t, u.buffers));
    InkOfVisible(t, u.buffers, u.at);
  }

  lemma InkOfPieces(t: Tools, text: string, h: Headings)
    requires Sane(t)
    ensures InkOf(t, Pieces(t, text, h)) == Tagged(Ink(t.isSpace, text), h.section)
  {
    var parts := Split(t.isSpace, text, t.maxTokens);
    InkOfUnder(t, h, TrimEach(t, parts));
    InkOfTrimEach(t, parts);
    InkOfSplit(t.isSpace, text, t.maxTokens);
  }

  /** The chunks of a list of units show exactly the visible characters the units took. */
  lemma {:induction false} EmittedKeepsInk(t: Tools, units: seq<Unit>)
    requires Sane(t) && AllSized(t, units)
    ensures InkOf(t, Emitted(t, units)) == InkOf(t, Taken(units))
  {
    if units != [] {
      var init, u := units[..|units| - 1], units[|units| - 1];
      EmittedKeepsInk(t, init);
      InkOfUnit(t, u);
      InkOfPieces(t, UnitText(t, u), Carried(t, u));
      InkOfAppend(t, Emitted(t, init), Pieces(t, UnitText(t, u), Carried(t, u)));
      InkOfAppend(t, Taken(init), EntriesOf(u.buffers));
    }
  }

  /** What is held back is the texts of the buffers held back, all small, and their first clause number. */
  ghost predicate HeldAs(t: Tools, pendingSmall: seq<string>, pendingClause: string, held: seq<Held>) {
    pendingSmall == Visible(t, held) && pendingClause == FirstNumber(t, held) && AllSmall(t, held)
  }

  /** The chunks are the units' texts, split, under what the units carry. */
  ghost predicate ShownAs(t: Tools, chunks: seq<Chunk>, units: seq<Unit>) {
    Shown(chunks) == Emitted(t, units) && AllSized(t, units)
  }

  /** Every text buffered so far went to a unit, is held back or is still in the
      buffer, where it came in under the current headings. */
  ghost predicate Accounted(
      log: seq<Entry>, units: seq<Unit>, held: seq<Held>, headings: Headings, buffer: seq<string>) {
    log == Taken(units) + (EntriesOf(held) + Under(headings, buffer)) && SameSection(held, headings)
  }

  predicate AllUnder(chunks: seq<Chunk>, from: nat, h: Headings) {
    from <= |chunks| && forall i :: from <= i < |chunks| ==> chunks[i].headings == h
  }

  /** A unit's chunks are the pieces of its text. */
  lemma UnitShown(t: Tools, before: seq<Chunk>, chunks: seq<Chunk>, units: seq<Unit>, u: Unit)
    requires ShownAs(t, before, units) && Sized(t, u)
    requires Shown(chunks) == Shown(before) + Pieces(t, UnitText(t, u), Carried(t, u))
    ensures ShownAs(t, chunks, units + [u])
  {
    EmittedMore(t, units, u);
    SizedMore(t, units, u);
  }

  lemma NothingVisible(t: Tools)
    ensures HeldAs(t, [], "", [])
  {
  }

  lemma NothingBefore(es: seq<Entry>)
    ensures EntriesOf([]) + es == es
  {
  }

  /** The held buffers go into a unit, and what they hold back is its text and its clause number. */
  lemma FlushedHeld(
    t: Tools, log: seq<Entry>, units: seq<Unit>, u: Unit, headings: Headings, buffer: seq<string>,
    pendingSmall: seq<string>, pendingClause: string)
    requires u.at == headings
    requires Accounted(log, units, u.buffers, headings, buffer) && HeldAs(t, pendingSmall, pendingClause, u.buffers)
    ensures Accounted(log, units + [u], [], headings, buffer)
    ensures Sized(t, u) && UnitText(t, u) == Trim(t.isSpace, JoinLines(pendingSmall))
    ensures Carried(t, u) == ChunkHeadings(headings, pendingClause)
    ensures pendingSmall == [] ==> UnitText(t, u) == "" && pendingClause == ""
  {
    TakenMore(units, u);
    NothingBefore(Under(headings, buffer));
    Regroup(Taken(units), EntriesOf(u.buffers), Under(headings, buffer));
    NothingVisibleNoNumber(t, u.buffers);
  }

  lemma {:induction false} NothingVisibleNoNumber(t: Tools, held: seq<Held>)
    ensures Visible(t, held) == [] ==> FirstNumber(t, held) == ""
  {
    if held != [] {
      NothingVisibleNoNumber(t, held[..|held| - 1]);
    }
  }

  /** So does the buffer when nothing is held back. */
  lemma FlushedBuffer(
    log: seq<Entry>, units: seq<Unit>, held: seq<Held>, u: Unit, headings: Headings, buffer: seq<string>)
    requires Accounted(log, units, held, headings, buffer) && held == []
    requires |u.buffers| == 1 && u.buffers[0].texts == buffer && u.buffers[0].came == headings
    ensures Accounted(log, units + [u], held, headings, [])
  {
    TakenMore(units, u);
    EntriesMore([], u.buffers[0]);
    assert [] + [u.buffers[0]] == u.buffers;
    NothingBefore(Under(headings, buffer));
    NothingBefore(Under(headings, []));
    assert Taken(units + [u]) + [] == Taken(units + [u]);
  }

  /** Or it is held back with the others. */
  lemma StillAccounted(
    log: seq<Entry>, units: seq<Unit>, held: seq<Held>, headings: Headings, buffer: seq<string>, b: Held)
    requires Accounted(log, units, held, headings, buffer) && b.texts == buffer && b.came == headings
    ensures Accounted(log, units, held + [b], headings, [])
  {
    EntriesMore(held, b);
    assert EntriesOf(held + [b]) + Under(headings, []) == EntriesOf(held) + Under(headings, buffer);
  }

  lemma HeldMore(
    t: Tools, pendingSmall: seq<string>, pendingClause: string, held: seq<Held>, b: Held, text: string)
    requires HeldAs(t, pendingSmall, pendingClause, held) && Small(t, b.texts) && text == BufferText(t, b.texts)
    ensures text == "" ==> HeldAs(t, pendingSmall, pendingClause, held + [b])
    ensures text != "" && pendingClause != "" ==> HeldAs(t, pendingSmall + [text], pendingClause, held + [b])
    ensures text != "" && pendingClause == "" ==> HeldAs(t, pendingSmall + [text], b.came.clauseNumber, held + [b])
  {
    assert (held + [b])[..|held|] == held;
  }

  lemma OneMoreAccounted(
    log: seq<Entry>, units: seq<Unit>, held: seq<Held>, headings: Headings, buffer: seq<string>, text: string)
    requires Accounted(log, units, held, headings, buffer)
    ensures Accounted(log + [(text, headings)], units, held, headings, buffer + [text])
  {
    UnderAppend(headings, buffer, [text]);
    assert Under(headings, [text]) == [(text, headings)];
    Regroup(EntriesOf(held), Under(headings, buffer), [(text, headings)]);
    Regroup(Taken(units), EntriesOf(held) + Under(headings, buffer), [(text, headings)]);
  }

  /** With nothing buffered the headings may change, the section only with nothing held back. */
  lemma NothingBuffered(log: seq<Entry>, units: seq<Unit>, held: seq<Held>, headings: Headings, next: Headings)
    requires Accounted(log, units, held, headings, [])
    requires (next.section == headings.section && next.sectionNumber == headings.sectionNumber) || held == []
    ensures Accounted(log, units, held, next, [])
  {
    assert Under(headings, []) == Under(next, []) == [];
  }

  lemma LoneUnit(
    t: Tools, log: seq<Entry>, units: seq<Unit>, held: seq<Held>, headings: Headings, buffer: seq<string>, u: Unit)
    requires Accounted(log, units, held, headings, buffer) && held == []
    requires BufferText(t, buffer) != "" && Estimate(BufferText(t, buffer)) >= t.minTokens
    requires u.at == headings && |u.buffers| == 1 && u.buffers[0].texts == buffer && u.buffers[0].came == headings
    ensures Accounted(log, units + [u], held, headings, [])
    ensures Sized(t, u) && UnitText(t, u) == BufferText(t, buffer)
    ensures Carried(t, u) == ChunkHeadings(headings, headings.clauseNumber)
  {
    OneBuffer(t, buffer, u);
    FlushedBuffer(log, units, held, u, headings, buffer);
  }

  /** A single buffer that is not small makes a unit that reads as it does and carries its headings. */
  lemma OneBuffer(t: Tools, buffer: seq<string>, u: Unit)
    requires BufferText(t, buffer) != "" && Estimate(BufferText(t, buffer)) >= t.minTokens
    requires |u.buffers| == 1 && u.buffers[0].texts == buffer && u.buffers[0].came == u.at
    ensures Sized(t, u) && UnitText(t, u) == BufferText(t, buffer)
    ensures Carried(t, u) == ChunkHeadings(u.at, u.at.clauseNumber)
  {
    assert u.buffers[..0] == [];
    var text := BufferText(t, buffer);
    assert Trim(t.isSpace, text) == text;
    assert Visible(t, u.buffers) == [text];
    assert FirstNumber(t, u.buffers) == u.at.clauseNumber;
  }
}
