// The quote lines of compaction.py: how the model's output is parsed, which
// quotes are trusted, and how the trusted ones are written into a segment.

module QuoteLines {
  import opened Wrappers
  import opened SentenceGate
  import opened Strings
  import opened Collections

  datatype Role = User | Assistant

  datatype Row = Row(id: nat, role: Role, content: string)

  datatype Speaker = AttorneySaid | AssistantSaid

  datatype Quote = Quote(rowId: nat, speaker: Speaker, text: string)

  // ----- Row ids

  predicate IsDigit(ch: char) {
    '0' <= ch <= '9'
  }

  function Digit(n: nat): (ch: char)
    requires n < 10
    ensures IsDigit(ch) && ch as int == '0' as int + n
  {
    '0' + n as char
  }

  function Decimal(n: nat): (s: string)
    ensures s != [] && forall k :: 0 <= k < |s| ==> IsDigit(s[k])
  {
    if n < 10 then [Digit(n)] else Decimal(n / 10) + [Digit(n % 10)]
  }

  /** int() of decimal digits of any script. */
  function ToNat(c: Chars, s: string): nat {
    if s == [] then 0 else 10 * ToNat(c, s[..|s| - 1]) + c.digitValue(s[|s| - 1])
  }

  lemma {:induction false} DecimalToNat(c: Chars, n: nat)
    requires c.Sane()
    ensures ToNat(c, Decimal(n)) == n
  {
    if n >= 10 {
      DecimalToNat(c, n / 10);
      assert Decimal(n)[..|Decimal(n)| - 1] == Decimal(n / 10);
    } else {
      assert Decimal(n)[..0] == [];
    }
  }

  // ----- One line

  const QUOTE_CHARS := "\"'\U{201C}\U{201D}\U{2018}\U{2019}\U{00AB}\U{00BB}"

  predicate IsQuoteMark(ch: char) {
    ch in QUOTE_CHARS
  }

  /** .strip().strip(_QUOTE_CHARS).strip() */
  function Peel(c: Chars, s: string): string {
    Trim(c.isSpace, Trim(IsQuoteMark, Trim(c.isSpace, s)))
  }

  function SkipSpaces(c: Chars, s: string): string {
    s[RunLength(c.isSpace, s)..]
  }

  /** The optional ", said earlier". */
  function SkipSaidEarlier(c: Chars, s: string): string {
    match AfterPrefix(s, ",")
    case None => s
    case Some(a) =>
      match AfterPrefix(SkipSpaces(c, a), "said")
      case None => s
      case Some(b) =>
        if RunLength(c.isSpace, b) == 0 then s
        else
          match AfterPrefix(SkipSpaces(c, b), "earlier")
          case None => s
          case Some(d) => d
  }

  function ParseText(c: Chars, s: string): Option<string> {
    match AfterPrefix(SkipSaidEarlier(c, s), "]")
    case None => None
    case Some(a) =>
      var t := SkipSpaces(c, a);
      if t == [] then None else Some(Peel(c, t))
  }

  function ParseSpeaker(c: Chars, s: string): Option<(Speaker, string)> {
    match AfterPrefix(s, "attorney")
    case Some(a) => (match ParseText(c, a) case None => None case Some(t) => Some((AttorneySaid, t)))
    case None =>
      match AfterPrefix(s, "assistant")
      case Some(a) => (match ParseText(c, a) case None => None case Some(t) => Some((AssistantSaid, t)))
      case None => None
  }

  /** One stripped line read as `[#12 assistant, said earlier] "text"`. */
  function ParseLine(c: Chars, line: string): Option<Quote> {
    match AfterPrefix(line, "[#")
    case None => None
    case Some(a) =>
      var d := RunLength(c.isDecimal, a);
      var b := a[d..];
      if d == 0 || RunLength(c.isSpace, b) == 0 then None
      else
        match ParseSpeaker(c, SkipSpaces(c, b))
        case None => None
        case Some(p) => Some(Quote(ToNat(c, a[..d]), p.0, p.1))
  }

  function SpeakerLabel(s: Speaker): string {
    match s
    case AttorneySaid => "attorney"
    case AssistantSaid => "assistant, said earlier"
  }

  function RenderLine(q: Quote): string {
    "[#" + Decimal(q.rowId) + " " + SpeakerLabel(q.speaker) + "] \"" + q.text + "\""
  }

  /** Neither a quote mark nor white space at either edge. */
  predicate CleanEdges(c: Chars, t: string) {
    t == [] || (!c.isSpace(t[0]) && !c.isSpace(t[|t| - 1]) && !IsQuoteMark(t[0]) && !IsQuoteMark(t[|t| - 1]))
  }

  lemma PeelQuoted(c: Chars, t: string)
    requires c.Sane()
    ensures Peel(c, "\"" + t + "\"") == Trim(c.isSpace, Trim(IsQuoteMark, t))
  {
    var s := "\"" + t + "\"";
    assert s[0] == '"' && s[|s| - 1] == '"';
    assert Trim(c.isSpace, s) == s;
    assert s[1..] == t + "\"";
    TrimSuffix(IsQuoteMark, t, '"');
  }

  lemma AfterOwnPrefix(prefix: string, rest: string)
    ensures AfterPrefix(prefix + rest, prefix) == Some(rest)
  {
  }

  lemma SkipOneSpace(c: Chars, rest: string)
    requires c.Sane() && rest != [] && '!' <= rest[0] <= '~'
    ensures SkipSpaces(c, " " + rest) == rest && RunLength(c.isSpace, " " + rest) == 1
  {
    RunThen(c.isSpace, " ", rest);
    assert (" " + rest)[1..] == rest;
  }

  /** `] "text"` gives back the text, its edges peeled. */
  lemma ParseTextOf(c: Chars, t: string)
    requires c.Sane()
    ensures ParseText(c, "]" + (" " + ("\"" + t + "\""))) == Some(Trim(c.isSpace, Trim(IsQuoteMark, t)))
  {
    var text := "\"" + t + "\"";
    AfterOwnPrefix("]", " " + text);
    SkipOneSpace(c, text);
    PeelQuoted(c, t);
    assert ("]" + (" " + text))[0] == ']';
  }

  lemma SkipsSaidEarlier(c: Chars, tail: string)
    requires c.Sane() && tail != []
    ensures SkipSaidEarlier(c, "," + (" " + ("said" + (" " + ("earlier" + tail))))) == tail
  {
    var d := "earlier" + tail;
    var b := "said" + (" " + d);
    AfterOwnPrefix("earlier", tail);
    AfterOwnPrefix("said", " " + d);
    AfterOwnPrefix(",", " " + b);
    assert d[0] == 'e' && b[0] == 's';
    SkipOneSpace(c, d);
    SkipOneSpace(c, b);
  }

  /** What follows the row id in a rendered line. */
  function Labelled(sp: Speaker, tail: string): string {
    match sp
    case AttorneySaid => "attorney" + tail
    case AssistantSaid => "assistant" + ("," + (" " + ("said" + (" " + ("earlier" + tail)))))
  }

  lemma ParseSpeakerOf(c: Chars, sp: Speaker, t: string)
    requires c.Sane()
    ensures ParseSpeaker(c, Labelled(sp, "]" + (" " + ("\"" + t + "\""))))
            == Some((sp, Trim(c.isSpace, Trim(IsQuoteMark, t))))
  {
    var tail := "]" + (" " + ("\"" + t + "\""));
    ParseTextOf(c, t);
    match sp
    case AttorneySaid => AfterOwnPrefix("attorney", tail);
    case AssistantSaid =>
      SkipsSaidEarlier(c, tail);
      AssistantIsRead(c, "," + (" " + ("said" + (" " + ("earlier" + tail)))), tail);
  }

  lemma AssistantIsRead(c: Chars, a: string, tail: string)
    requires SkipSaidEarlier(c, a) == tail && tail != [] && tail[0] == ']'
    ensures ParseSpeaker(c, "assistant" + a) ==
            match ParseText(c, tail)
            case None => None
            case Some(t) => Some((AssistantSaid, t))
  {
    AfterOwnPrefix("assistant", a);
    assert ("assistant" + a)[1] == 's' && "attorney"[1] == 't';
    SaidEarlierIsOptional(c, a, tail);
  }

  lemma SaidEarlierIsOptional(c: Chars, a: string, tail: string)
    requires SkipSaidEarlier(c, a) == tail && tail != [] && tail[0] == ']'
    ensures ParseText(c, a) == ParseText(c, tail)
  {
    assert AfterPrefix(tail, ",").None?;
  }

  lemma RenderedShape(q: Quote)
    ensures RenderLine(q) ==
            "[#" + (Decimal(q.rowId) + (" " + Labelled(q.speaker, "]" + (" " + ("\"" + q.text + "\"")))))
    ensures Labelled(q.speaker, "]" + (" " + ("\"" + q.text + "\"")))[0] == 'a'
  {
  }

  /** A rendered line always parses, to the same row and speaker and to the text with its edges peeled. */
  lemma RenderParses(c: Chars, q: Quote)
    requires c.Sane()
    ensures ParseLine(c, RenderLine(q)) == Some(q.(text := Trim(c.isSpace, Trim(IsQuoteMark, q.text))))
  {
    var d := Decimal(q.rowId);
    var rest := Labelled(q.speaker, "]" + (" " + ("\"" + q.text + "\"")));
    RenderedShape(q);
    ParseSpeakerOf(c, q.speaker, q.text);
    DecimalToNat(c, q.rowId);
    ParseLineOf(c, d, rest);
  }

  lemma ParseLineOf(c: Chars, d: string, rest: string)
    requires c.Sane() && d != [] && (forall k :: 0 <= k < |d| ==> c.isDecimal(d[k])) && rest != [] && rest[0] == 'a'
    ensures ParseLine(c, "[#" + (d + (" " + rest))) ==
            match ParseSpeaker(c, rest)
            case None => None
            case Some(p) => Some(Quote(ToNat(c, d), p.0, p.1))
  {
    AfterOwnPrefix("[#", d + (" " + rest));
    RunThen(c.isDecimal, d, " " + rest);
    assert (d + (" " + rest))[|d|..] == " " + rest && (d + (" " + rest))[..|d|] == d;
    SkipOneSpace(c, rest);
  }

  /** So it parses back to the same quote exactly when its text has clean edges. */
  lemma RoundTripIffClean(c: Chars, q: Quote)
    requires c.Sane()
    ensures ParseLine(c, RenderLine(q)) == Some(q) <==> CleanEdges(c, q.text)
  {
    RenderParses(c, q);
    PeelsToItselfIff(c, q.text);
  }

  lemma PeelsToItselfIff(c: Chars, t: string)
    ensures Trim(c.isSpace, Trim(IsQuoteMark, t)) == t <==> CleanEdges(c, t)
  {
    var u := Trim(IsQuoteMark, t);
    if Trim(c.isSpace, u) == t {
      assert |u| == |t|;
      TrimKeepsLength(IsQuoteMark, t);
      TrimKeepsLength(c.isSpace, u);
    }
  }

  lemma TrimKeepsLength(p: char -> bool, s: string)
    requires |Trim(p, s)| == |s|
    ensures Trim(p, s) == s
  {
  }

  /** A parsed quote can have unclean edges: peeling takes one layer of quote
      marks off each side of the spaces, not what the spaces enclose. */
  lemma PeeledTextMayBeUnclean(c: Chars, line: string)
    requires c.Sane() && line == "[#1 attorney] \" 'a' \""
    ensures ParseLine(c, line) == Some(Quote(1, AttorneySaid, "'a'")) && !CleanEdges(c, "'a'")
  {
    var t := " 'a' ";
    TrimOfTrimmed(IsQuoteMark, t);
    assert t == " " + ("'a'" + " ");
    TrimSpaced(c, "'a'");
    SpacedLine(t, line);
    RenderParses(c, Quote(1, AttorneySaid, t));
  }

  lemma SpacedLine(t: string, line: string)
    requires t == " 'a' " && line == "[#1 attorney] \" 'a' \""
    ensures RenderLine(Quote(1, AttorneySaid, t)) == line
  {
    assert Decimal(1) == "1";
  }

  lemma TrimOfTrimmed(p: char -> bool, t: string)
    requires t != [] && !p(t[0]) && !p(t[|t| - 1])
    ensures Trim(p, t) == t
  {
  }

  lemma TrimSpaced(c: Chars, s: string)
    requires c.Sane() && s != [] && !c.isSpace(s[0]) && !c.isSpace(s[|s| - 1])
    ensures Trim(c.isSpace, " " + (s + " ")) == s
  {
    assert (" " + (s + " "))[1..] == s + " ";
    TrimSuffix(c.isSpace, s, ' ');
    TrimOfTrimmed(c.isSpace, s);
  }

  // ----- The model's whole output

  datatype ParseError = NotAQuoteLine(line: string) | NoQuotes

  /** A line of three backticks, perhaps with a language name, and nothing else. */
  predicate IsFence(c: Chars, rawLine: string) {
    var t := Trim(c.isSpace, rawLine);
    && "```" <= t
    && forall k :: 3 <= k < |t| ==> ('a' <= t[k] <= 'z' || 'A' <= t[k] <= 'Z')
  }

  predicate Skipped(c: Chars, rawLine: string) {
    Trim(c.isSpace, rawLine) == "" || IsFence(c, rawLine)
  }

  /** What one line is. */
  datatype Reading = Blank | QuoteLine(quote: Quote) | Other(line: string)

  function ReadLine(c: Chars, rawLine: string): Reading {
    var line := Trim(c.isSpace, rawLine);
    if Skipped(c, rawLine) then Blank
    else
      match ParseLine(c, line)
      case None => Other(line)
      case Some(q) => QuoteLine(q)
  }

  function ReadLines(c: Chars, lines: seq<string>): (rs: seq<Reading>)
    ensures |rs| == |lines| && forall i :: 0 <= i < |lines| ==> rs[i] == ReadLine(c, lines[i])
  {
    seq(|lines|, i requires 0 <= i < |lines| => ReadLine(c, lines[i]))
  }

  /** The quotes read, or the first line that is not one. */
  function Collected(rs: seq<Reading>): Result<seq<Quote>, ParseError> {
    if rs == [] then Ok([])
    else
      match Collected(rs[..|rs| - 1])
      case Fail(e) => Fail(e)
      case Ok(qs) =>
        match rs[|rs| - 1]
        case Blank => Ok(qs)
        case Other(line) => Fail(NotAQuoteLine(line))
        case QuoteLine(q) => Ok(qs + [q])
  }

  function ParseAll(c: Chars, lines: seq<string>): Result<seq<Quote>, ParseError> {
    Collected(ReadLines(c, lines))
  }

  function ParsedQuotes(c: Chars, body: string): Result<seq<Quote>, ParseError> {
    match ParseAll(c, SplitAt(c.isLineBreak, body))
    case Fail(e) => Fail(e)
    case Ok(qs) => if qs == [] then Fail(NoQuotes) else Ok(qs)
  }

  method ParseQuoteLines(c: Chars, body: string) returns (r: Result<seq<Quote>, ParseError>)
    ensures r == ParsedQuotes(c, body)
  {
    var lines := SplitAt(c.isLineBreak, body);
    var quotes: seq<Quote> := [];
    ghost var rs := ReadLines(c, lines);
    for i := 0 to |lines|
      invariant Collected(rs[..i]) == Ok(quotes)
    {
      CollectedNext(rs, i);
      assert rs[i] == ReadLine(c, lines[i]);
      var line := Trim(c.isSpace, lines[i]);
      if line == "" || IsFence(c, lines[i]) {
        continue;
      }
      match ParseLine(c, line)
      case None =>
        FailureStays(rs, i + 1);
        return Fail(NotAQuoteLine(line));
      case Some(q) => quotes := quotes + [q];
    }
    assert rs[..|lines|] == rs;
    r := if quotes == [] then Fail(NoQuotes) else Ok(quotes);
  }

  lemma CollectedNext(rs: seq<Reading>, i: nat)
    requires i < |rs| && Collected(rs[..i]).Ok?
    ensures var qs := Collected(rs[..i]).value;
            Collected(rs[..i + 1]) ==
            match rs[i]
            case Blank => Ok(qs)
            case Other(line) => Fail(NotAQuoteLine(line))
            case QuoteLine(q) => Ok(qs + [q])
  {
    assert rs[..i + 1][..i] == rs[..i];
  }

  lemma {:induction false} FailureStays(rs: seq<Reading>, n: nat)
    requires n <= |rs| && Collected(rs[..n]).Fail?
    ensures Collected(rs) == Collected(rs[..n])
  {
    if n < |rs| {
      var init := rs[..|rs| - 1];
      assert init[..n] == rs[..n];
      FailureStays(init, n);
    } else {
      assert rs[..n] == rs;
    }
  }

  // ----- Shape

  function FoldShape(ch: char): char {
    if ch in "\"\U{201C}\U{201D}\U{2018}\U{2019}" then '\''
    else if ch == '\U{00A0}' then ' '
    else if ch == '\U{2013}' || ch == '\U{2014}' then '-'
    else ch
  }

  /** Quote forms and dashes folded, emphasis and code marks dropped. */
  function FoldMarks(s: string): string {
    if s == [] then []
    else
      var ch := FoldShape(s[0]);
      (if ch == '`' || ch == '*' then [] else [ch]) + FoldMarks(s[1..])
  }

  function SqueezeAll(c: Chars, ls: seq<string>): seq<string> {
    if ls == [] then []
    else
      var l := Squeeze(c.isSpace, ls[0]);
      (if l == "" then [] else [l]) + SqueezeAll(c, ls[1..])
  }

  function NormShape(c: Chars, text: string): string {
    JoinLines(SqueezeAll(c, SplitAt(ch => ch == '\n', FoldMarks(text))))
  }

  // ----- Which quotes are trusted

  datatype Failure = OutsideRange | NotInTranscript | WrongSpeaker | EmptyQuote | NotInMessage | NotASentence

  /** The last row with the id, as a dictionary built from the rows holds it. */
  function RowById(rows: seq<Row>, id: nat): (r: Option<Row>)
    ensures r.Some? ==> r.value in rows && r.value.id == id
    ensures r.None? ==> forall i :: 0 <= i < |rows| ==> rows[i].id != id
  {
    if rows == [] then None
    else if rows[|rows| - 1].id == id then Some(rows[|rows| - 1])
    else RowById(rows[..|rows| - 1], id)
  }

  function Expected(role: Role): Speaker {
    if role == User then AttorneySaid else AssistantSaid
  }

  /** Why one quote cannot be trusted, if it cannot. */
  function QuoteFailure(c: Chars, q: Quote, rows: seq<Row>, from: nat, upto: nat): Option<Failure> {
    if !(from <= q.rowId <= upto) then Some(OutsideRange)
    else
      match RowById(rows, q.rowId)
      case None => Some(NotInTranscript)
      case Some(row) =>
        if q.speaker != Expected(row.role) then Some(WrongSpeaker)
        else if q.text == "" then Some(EmptyQuote)
        else
          var nrow := NormShape(c, row.content);
          var nquote := NormShape(c, q.text);
          if !Contains(c.casefold(nrow), c.casefold(nquote)) then Some(NotInMessage)
          else if !Accepts(c, nrow, nquote) then Some(NotASentence)
          else None
  }

  predicate Trusted(c: Chars, q: Quote, rows: seq<Row>, from: nat, upto: nat) {
    QuoteFailure(c, q, rows, from, upto).None?
  }

  method FindQuoteFailure(c: Chars, q: Quote, rows: seq<Row>, from: nat, upto: nat) returns (f: Option<Failure>)
    ensures f == QuoteFailure(c, q, rows, from, upto)
  {
    if !(from <= q.rowId <= upto) {
      return Some(OutsideRange);
    }
    var found := RowById(rows, q.rowId);
    if found.None? {
      return Some(NotInTranscript);
    }
    var row := found.value;
    if q.speaker != Expected(row.role) {
      return Some(WrongSpeaker);
    }
    if q.text == "" {
      return Some(EmptyQuote);
    }
    var nrow := NormShape(c, row.content);
    var nquote := NormShape(c, q.text);
    if !Contains(c.casefold(nrow), c.casefold(nquote)) {
      return Some(NotInMessage);
    }
    var whole := QuotesAWholeSentence(c, nrow, nquote);
    f := if whole then None else Some(NotASentence);
  }

  /** A trusted quote is a whole sentence of the one row it cites, said by that row's speaker. */
  lemma TrustedIsVerbatim(c: Chars, q: Quote, rows: seq<Row>, from: nat, upto: nat)
    requires Trusted(c, q, rows, from, upto)
    ensures exists r :: r in rows && r.id == q.rowId && from <= r.id <= upto && q.speaker == Expected(r.role)
                        && StandsIn(c, NormShape(c, r.content), NormShape(c, q.text))
  {
    var r := RowById(rows, q.rowId).value;
    AcceptedIsWhole(c, NormShape(c, r.content), NormShape(c, q.text));
    assert StandsIn(c, NormShape(c, r.content), NormShape(c, q.text));
  }

  ghost predicate StandsIn(c: Chars, row: string, quote: string) {
    exists p: nat :: Occurs(c, row, quote, p) && Aligned(c, row, quote, p)
  }

  // ----- The two validators

  function Failures(c: Chars, qs: seq<Quote>, rows: seq<Row>, from: nat, upto: nat): (fs: seq<Option<Failure>>)
    ensures |fs| == |qs| && forall i :: 0 <= i < |qs| ==> fs[i] == QuoteFailure(c, qs[i], rows, from, upto)
  {
    seq(|qs|, i requires 0 <= i < |qs| => QuoteFailure(c, qs[i], rows, from, upto))
  }

  /** The quotes without a failure. */
  function Survivors(qs: seq<Quote>, fs: seq<Option<Failure>>): seq<Quote>
    requires |qs| == |fs|
  {
    if qs == [] then []
    else
      var n := |qs| - 1;
      var k := Survivors(qs[..n], fs[..n]);
      if fs[n].None? then k + [qs[n]] else k
  }

  function Reasons(fs: seq<Option<Failure>>): seq<Failure> {
    if fs == [] then []
    else
      var d := Reasons(fs[..|fs| - 1]);
      match fs[|fs| - 1]
      case None => d
      case Some(f) => d + [f]
  }

  function Kept(c: Chars, qs: seq<Quote>, rows: seq<Row>, from: nat, upto: nat): seq<Quote> {
    Survivors(qs, Failures(c, qs, rows, from, upto))
  }

  function Dropped(c: Chars, qs: seq<Quote>, rows: seq<Row>, from: nat, upto: nat): seq<Failure> {
    Reasons(Failures(c, qs, rows, from, upto))
  }

  datatype Fatal = Unparsable(error: ParseError) | NothingSurvived(rejected: nat)

  datatype Partition = Partition(kept: seq<Quote>, dropped: seq<Failure>, fatal: Option<Fatal>)

  function Partitioned(c: Chars, body: string, rows: seq<Row>, from: nat, upto: nat): Partition {
    match ParsedQuotes(c, body)
    case Fail(e) => Partition([], [], Some(Unparsable(e)))
    case Ok(qs) =>
      var kept := Kept(c, qs, rows, from, upto);
      var dropped := Dropped(c, qs, rows, from, upto);
      if kept == [] then Partition([], dropped, Some(NothingSurvived(|dropped|)))
      else Partition(kept, dropped, None)
  }

  method PartitionQuotes(c: Chars, body: string, rows: seq<Row>, from: nat, upto: nat) returns (p: Partition)
    ensures p == Partitioned(c, body, rows, from, upto)
  {
    var parsed := ParseQuoteLines(c, body);
    if parsed.Fail? {
      return Partition([], [], Some(Unparsable(parsed.error)));
    }
    var quotes := parsed.value;
    var kept: seq<Quote>, dropped: seq<Failure> := [], [];
    ghost var fs := Failures(c, quotes, rows, from, upto);
    for i := 0 to |quotes|
      invariant kept == Survivors(quotes[..i], fs[..i])
      invariant dropped == Reasons(fs[..i])
    {
      SurvivorsNext(quotes, fs, i);
      var failure := FindQuoteFailure(c, quotes[i], rows, from, upto);
      assert failure == fs[i];
      match failure
      case Some(f) => dropped := dropped + [f];
      case None => kept := kept + [quotes[i]];
    }
    assert quotes[..|quotes|] == quotes && fs[..|quotes|] == fs;
    p := if kept == [] then Partition([], dropped, Some(NothingSurvived(|dropped|)))
         else Partition(kept, dropped, None);
  }

  lemma SurvivorsNext(qs: seq<Quote>, fs: seq<Option<Failure>>, i: nat)
    requires i < |qs| == |fs|
    ensures Survivors(qs[..i + 1], fs[..i + 1]) ==
            if fs[i].None? then Survivors(qs[..i], fs[..i]) + [qs[i]] else Survivors(qs[..i], fs[..i])
    ensures Reasons(fs[..i + 1]) == if fs[i].None? then Reasons(fs[..i]) else Reasons(fs[..i]) + [fs[i].value]
  {
    assert qs[..i + 1][..i] == qs[..i] && fs[..i + 1][..i] == fs[..i];
  }

  datatype Verdict = Valid | CannotParse(error: ParseError) | Rejected(failure: Failure)

  function FirstFailure(fs: seq<Option<Failure>>): Option<Failure> {
    if fs == [] then None
    else
      match FirstFailure(fs[..|fs| - 1])
      case Some(f) => Some(f)
      case None => fs[|fs| - 1]
  }

  function Validated(c: Chars, body: string, rows: seq<Row>, from: nat, upto: nat): Verdict {
    match ParsedQuotes(c, body)
    case Fail(e) => CannotParse(e)
    case Ok(qs) =>
      match FirstFailure(Failures(c, qs, rows, from, upto))
      case Some(f) => Rejected(f)
      case None => Valid
  }

  method ValidateSegment(c: Chars, body: string, rows: seq<Row>, from: nat, upto: nat) returns (v: Verdict)
    ensures v == Validated(c, body, rows, from, upto)
  {
    var parsed := ParseQuoteLines(c, body);
    if parsed.Fail? {
      return CannotParse(parsed.error);
    }
    var first := FindFirstFailure(c, parsed.value, rows, from, upto);
    v := if first.Some? then Rejected(first.value) else Valid;
  }

  method FindFirstFailure(
      c: Chars, quotes: seq<Quote>, rows: seq<Row>, from: nat, upto: nat)
      returns (f: Option<Failure>)
    ensures f == FirstFailure(Failures(c, quotes, rows, from, upto))
  {
    ghost var fs := Failures(c, quotes, rows, from, upto);
    for i := 0 to |quotes|
      invariant FirstFailure(fs[..i]).None?
    {
      FirstFailureNext(fs, i);
      f := FindQuoteFailure(c, quotes[i], rows, from, upto);
      assert f == fs[i];
      if f.Some? {
        FirstFailureStays(fs, i + 1);
        return;
      }
    }
    assert fs[..|quotes|] == fs;
    f := None;
  }

  lemma FirstFailureNext(fs: seq<Option<Failure>>, i: nat)
    requires i < |fs| && FirstFailure(fs[..i]).None?
    ensures FirstFailure(fs[..i + 1]) == fs[i]
  {
    assert fs[..i + 1][..i] == fs[..i];
  }

  lemma {:induction false} FirstFailureStays(fs: seq<Option<Failure>>, n: nat)
    requires n <= |fs| && FirstFailure(fs[..n]).Some?
    ensures FirstFailure(fs) == FirstFailure(fs[..n])
  {
    if n < |fs| {
      var init := fs[..|fs| - 1];
      assert init[..n] == fs[..n];
      FirstFailureStays(init, n);
    } else {
      assert fs[..n] == fs;
    }
  }

  predicate AllTrusted(c: Chars, qs: seq<Quote>, rows: seq<Row>, from: nat, upto: nat) {
    forall i :: 0 <= i < |qs| ==> Trusted(c, qs[i], rows, from, upto)
  }

  /** Where there is a failure, or none. */
  function Failed(fs: seq<Option<Failure>>, failed: bool): (flags: seq<bool>)
    ensures |flags| == |fs| && forall i :: 0 <= i < |fs| ==> flags[i] == (fs[i].Some? == failed)
  {
    seq(|fs|, i requires 0 <= i < |fs| => fs[i].Some? == failed)
  }

  ghost predicate KeptAt(qs: seq<Quote>, kept: seq<Quote>, at: seq<nat>) {
    |kept| == |at| && forall i :: 0 <= i < |at| ==> at[i] < |qs| && kept[i] == qs[at[i]]
  }

  ghost predicate DroppedAt(fs: seq<Option<Failure>>, dropped: seq<Failure>, at: seq<nat>) {
    |dropped| == |at| && forall i :: 0 <= i < |at| ==> at[i] < |fs| && fs[at[i]] == Some(dropped[i])
  }

  lemma {:induction false} SurvivorsStand(qs: seq<Quote>, fs: seq<Option<Failure>>)
    requires |qs| == |fs|
    ensures KeptAt(qs, Survivors(qs, fs), Where(Failed(fs, false)))
  {
    if qs != [] {
      var n := |qs| - 1;
      SurvivorsStand(qs[..n], fs[..n]);
      assert Failed(fs, false)[..n] == Failed(fs[..n], false);
    }
  }

  lemma {:induction false} ReasonsStand(fs: seq<Option<Failure>>)
    ensures DroppedAt(fs, Reasons(fs), Where(Failed(fs, true)))
  {
    if fs != [] {
      var n := |fs| - 1;
      ReasonsStand(fs[..n]);
      assert Failed(fs, true)[..n] == Failed(fs[..n], true);
    }
  }

  lemma {:induction false} AsManyAsQuotes(qs: seq<Quote>, fs: seq<Option<Failure>>)
    requires |qs| == |fs|
    ensures |Survivors(qs, fs)| + |Reasons(fs)| == |qs|
  {
    if qs != [] {
      AsManyAsQuotes(qs[..|qs| - 1], fs[..|qs| - 1]);
    }
  }

  /** Each parsed quote is either kept, once and in its place among the kept, or
      dropped, its reason in its place among the reasons: kept exactly when trusted. */
  lemma KeptAndDropped(c: Chars, qs: seq<Quote>, rows: seq<Row>, from: nat, upto: nat)
    returns (kept: seq<nat>, dropped: seq<nat>)
    ensures Ascending(kept) && KeptAt(qs, Kept(c, qs, rows, from, upto), kept)
    ensures Ascending(dropped)
    ensures DroppedAt(Failures(c, qs, rows, from, upto), Dropped(c, qs, rows, from, upto), dropped)
    ensures forall k: nat :: k < |qs| ==>
              && (k in kept <==> Trusted(c, qs[k], rows, from, upto))
              && (k in dropped <==> !Trusted(c, qs[k], rows, from, upto))
    ensures |Kept(c, qs, rows, from, upto)| + |Dropped(c, qs, rows, from, upto)| == |qs|
  {
    var fs := Failures(c, qs, rows, from, upto);
    SurvivorsStand(qs, fs);
    ReasonsStand(fs);
    AsManyAsQuotes(qs, fs);
    kept, dropped := Where(Failed(fs, false)), Where(Failed(fs, true));
    forall k: nat | k < |qs|
      ensures k in kept <==> Trusted(c, qs[k], rows, from, upto)
      ensures k in dropped <==> !Trusted(c, qs[k], rows, from, upto)
    {
      WhereOf(Failed(fs, false), k);
      WhereOf(Failed(fs, true), k);
    }
  }

  ghost predicate NoFailure(fs: seq<Option<Failure>>) {
    forall i :: 0 <= i < |fs| ==> fs[i].None?
  }

  lemma {:induction false} SurvivorsFacts(qs: seq<Quote>, fs: seq<Option<Failure>>)
    requires |qs| == |fs|
    ensures Reasons(fs) == [] <==> NoFailure(fs)
    ensures NoFailure(fs) ==> Survivors(qs, fs) == qs
    ensures FirstFailure(fs) == if Reasons(fs) == [] then None else Some(Reasons(fs)[0])
  {
    if qs != [] {
      var n := |qs| - 1;
      SurvivorsFacts(qs[..n], fs[..n]);
      assert NoFailure(fs) <==> NoFailure(fs[..n]) && fs[n].None?;
      assert qs == qs[..n] + [qs[n]];
    }
  }

  /** What is kept is trusted; all is kept exactly when all is trusted. */
  lemma KeptAreTrusted(c: Chars, qs: seq<Quote>, rows: seq<Row>, from: nat, upto: nat)
    ensures AllTrusted(c, Kept(c, qs, rows, from, upto), rows, from, upto)
    ensures forall q :: q in Kept(c, qs, rows, from, upto) ==> q in qs
    ensures Dropped(c, qs, rows, from, upto) == [] <==> AllTrusted(c, qs, rows, from, upto)
    ensures AllTrusted(c, qs, rows, from, upto) ==> Kept(c, qs, rows, from, upto) == qs
  {
    var fs := Failures(c, qs, rows, from, upto);
    SurvivorsFacts(qs, fs);
    var kept, dropped := KeptAndDropped(c, qs, rows, from, upto);
    assert AllTrusted(c, qs, rows, from, upto) <==> NoFailure(fs);
    forall i | 0 <= i < |kept|
      ensures Trusted(c, Kept(c, qs, rows, from, upto)[i], rows, from, upto)
    {
      assert kept[i] in kept;
    }
  }

  /** The strict check's failure is the first reason the lenient one gives. */
  lemma FirstFailureIsFirstDropped(c: Chars, qs: seq<Quote>, rows: seq<Row>, from: nat, upto: nat)
    ensures var d := Dropped(c, qs, rows, from, upto);
            FirstFailure(Failures(c, qs, rows, from, upto)) == if d == [] then None else Some(d[0])
  {
    SurvivorsFacts(qs, Failures(c, qs, rows, from, upto));
  }

  /** The strict check passes exactly when the lenient one drops nothing, and
      otherwise names the first failure the lenient one drops. */
  lemma StrictIsLenientWithoutDrops(c: Chars, body: string, rows: seq<Row>, from: nat, upto: nat)
    ensures var p := Partitioned(c, body, rows, from, upto);
            var v := Validated(c, body, rows, from, upto);
            && (v == Valid <==> p.fatal.None? && p.dropped == [])
            && (v.Rejected? ==> p.dropped != [] && v.failure == p.dropped[0])
            && (forall e :: v == CannotParse(e) <==> p.fatal == Some(Unparsable(e)))
  {
    if ParsedQuotes(c, body).Ok? {
      KeptAreTrusted(c, ParsedQuotes(c, body).value, rows, from, upto);
      FirstFailureIsFirstDropped(c, ParsedQuotes(c, body).value, rows, from, upto);
    }
  }

  // ----- Writing the kept quotes and reading them back

  predicate Unbroken(c: Chars, s: string) {
    forall k :: 0 <= k < |s| ==> !c.isLineBreak(s[k])
  }

  /** Visible ASCII and spaces only. */
  predicate Plain(s: string) {
    forall k :: 0 <= k < |s| ==> ' ' <= s[k] <= '~'
  }

  lemma RenderedIsUnbroken(c: Chars, q: Quote)
    requires c.Sane() && Unbroken(c, q.text)
    ensures Unbroken(c, RenderLine(q))
    ensures Trim(c.isSpace, RenderLine(q)) == RenderLine(q)
    ensures !Skipped(c, RenderLine(q))
  {
    var head := "[#" + Decimal(q.rowId) + " " + SpeakerLabel(q.speaker) + "] \"";
    assert Plain(SpeakerLabel(q.speaker)) && Plain("[#") && Plain(" ") && Plain("] \"");
    assert Plain(head);
    var line := RenderLine(q);
    assert line == head + q.text + "\"";
    assert line[0] == '[' && line[|line| - 1] == '"';
    forall k | 0 <= k < |line|
      ensures !c.isLineBreak(line[k])
    {
      if k < |head| {
        assert line[k] == head[k];
      } else if k < |head| + |q.text| {
        assert line[k] == q.text[k - |head|];
      }
    }
  }

  function RenderLines(qs: seq<Quote>): (ls: seq<string>)
    ensures |ls| == |qs| && forall i :: 0 <= i < |qs| ==> ls[i] == RenderLine(qs[i])
  {
    seq(|qs|, i requires 0 <= i < |qs| => RenderLine(qs[i]))
  }

  ghost predicate Readable(c: Chars, qs: seq<Quote>) {
    forall i :: 0 <= i < |qs| ==> CleanEdges(c, qs[i].text) && Unbroken(c, qs[i].text)
  }

  lemma RenderedReads(c: Chars, q: Quote)
    requires c.Sane() && CleanEdges(c, q.text) && Unbroken(c, q.text)
    ensures ReadLine(c, RenderLine(q)) == QuoteLine(q)
  {
    RenderedIsUnbroken(c, q);
    RoundTripIffClean(c, q);
  }

  lemma {:induction false} QuotesAreCollected(rs: seq<Reading>, qs: seq<Quote>)
    requires |rs| == |qs| && forall i :: 0 <= i < |qs| ==> rs[i] == QuoteLine(qs[i])
    ensures Collected(rs) == Ok(qs)
  {
    if qs != [] {
      var n := |qs| - 1;
      QuotesAreCollected(rs[..n], qs[..n]);
      assert qs == qs[..n] + [qs[n]];
    }
  }

  lemma RenderedLinesParse(c: Chars, qs: seq<Quote>)
    requires c.Sane() && Readable(c, qs)
    ensures ParseAll(c, RenderLines(qs)) == Ok(qs)
  {
    var lines := RenderLines(qs);
    var rs := ReadLines(c, lines);
    forall i | 0 <= i < |qs|
      ensures rs[i] == QuoteLine(qs[i])
    {
      RenderedReads(c, qs[i]);
    }
    QuotesAreCollected(rs, qs);
  }

  lemma RenderedBodyParses(c: Chars, qs: seq<Quote>)
    requires c.Sane() && qs != [] && Readable(c, qs)
    ensures ParsedQuotes(c, JoinLines(RenderLines(qs))) == Ok(qs)
  {
    forall i | 0 <= i < |qs|
      ensures Unbroken(c, RenderLines(qs)[i])
    {
      RenderedIsUnbroken(c, qs[i]);
    }
    SplitJoined(c.isLineBreak, RenderLines(qs));
    RenderedLinesParse(c, qs);
  }

  ghost predicate Within(a: string, b: string) {
    forall ch :: ch in a ==> ch in b
  }

  lemma TailIsWithin(s: string, n: nat)
    requires n <= |s|
    ensures Within(s[n..], s)
  {
  }

  lemma SkippedIsWithin(c: Chars, s: string)
    ensures Within(SkipSaidEarlier(c, s), s)
  {
  }

  lemma PeelIsWithin(c: Chars, s: string)
    ensures Within(Peel(c, s), s)
  {
  }

  lemma ParseTextTakes(c: Chars, s: string)
    ensures ParseText(c, s).Some? ==> Within(ParseText(c, s).value, s)
  {
    if ParseText(c, s).Some? {
      SkippedIsWithin(c, s);
      var a := SkipSaidEarlier(c, s)[1..];
      TailIsWithin(SkipSaidEarlier(c, s), 1);
      TailIsWithin(a, RunLength(c.isSpace, a));
      PeelIsWithin(c, SkipSpaces(c, a));
    }
  }

  lemma ParseLineTakes(c: Chars, line: string)
    ensures ParseLine(c, line).Some? ==> Within(ParseLine(c, line).value.text, line)
  {
    if ParseLine(c, line).Some? {
      var a := line[2..];
      var b := SkipSpaces(c, a[RunLength(c.isDecimal, a)..]);
      ParseTextTakes(c, if AfterPrefix(b, "attorney").Some? then b[8..] else b[9..]);
    }
  }

  lemma {:induction false} CollectedIsRead(rs: seq<Reading>)
    ensures Collected(rs).Ok? ==> forall i :: 0 <= i < |Collected(rs).value| ==> QuoteLine(Collected(rs).value[i]) in rs
  {
    if rs != [] {
      CollectedIsRead(rs[..|rs| - 1]);
      assert rs == rs[..|rs| - 1] + [rs[|rs| - 1]];
    }
  }

  lemma ReadIsUnbroken(c: Chars, rawLine: string, q: Quote)
    requires Unbroken(c, rawLine) && ReadLine(c, rawLine) == QuoteLine(q)
    ensures Unbroken(c, q.text)
  {
    var line := Trim(c.isSpace, rawLine);
    ParseLineTakes(c, line);
    forall k | 0 <= k < |q.text|
      ensures !c.isLineBreak(q.text[k])
    {
      assert q.text[k] in q.text;
      assert q.text[k] in rawLine;
    }
  }

  lemma ParsedIsUnbroken(c: Chars, lines: seq<string>)
    requires forall i :: 0 <= i < |lines| ==> Unbroken(c, lines[i])
    ensures ParseAll(c, lines).Ok? ==>
              forall i :: 0 <= i < |ParseAll(c, lines).value| ==> Unbroken(c, ParseAll(c, lines).value[i].text)
  {
    var rs := ReadLines(c, lines);
    CollectedIsRead(rs);
    if Collected(rs).Ok? {
      forall i | 0 <= i < |Collected(rs).value|
        ensures Unbroken(c, Collected(rs).value[i].text)
      {
        var k :| 0 <= k < |rs| && rs[k] == QuoteLine(Collected(rs).value[i]);
        ReadIsUnbroken(c, lines[k], Collected(rs).value[i]);
      }
    }
  }

  /** Whatever the model wrote: the quotes kept from it, written out, read back
      as themselves and pass the strict check, when their edges are clean. */
  lemma KeptReadBack(c: Chars, body: string, rows: seq<Row>, from: nat, upto: nat)
    requires c.Sane() && Partitioned(c, body, rows, from, upto).fatal.None?
    requires var kept := Partitioned(c, body, rows, from, upto).kept;
             forall i :: 0 <= i < |kept| ==> CleanEdges(c, kept[i].text)
    ensures var kept := Partitioned(c, body, rows, from, upto).kept;
            && ParsedQuotes(c, JoinLines(RenderLines(kept))) == Ok(kept)
            && Validated(c, JoinLines(RenderLines(kept)), rows, from, upto) == Valid
  {
    var qs := ParsedQuotes(c, body).value;
    var kept := Partitioned(c, body, rows, from, upto).kept;
    KeptAreTrusted(c, qs, rows, from, upto);
    ParsedIsUnbroken(c, SplitAt(c.isLineBreak, body));
    forall i | 0 <= i < |kept|
      ensures Unbroken(c, kept[i].text)
    {
      assert kept[i] in qs;
    }
    RenderedBodyParses(c, kept);
    KeptAreTrusted(c, kept, rows, from, upto);
    FirstFailureIsFirstDropped(c, kept, rows, from, upto);
  }
}
