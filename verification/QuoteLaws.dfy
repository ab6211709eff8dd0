// What normalising a text keeps of it, and so what a trusted quote is of the row
// it cites: its visible characters stand there one after another.

module QuoteLaws {
  import opened Wrappers
  import opened Strings
  import opened VisibleText
  import opened SentenceGate
  import opened QuoteLines
  import opened Collections

  // ----- What normalising keeps

  /** How a character is compared: quote forms alike, dashes alike. */
  function Alike(ch: char): char {
    match ch
    case '"' => '\''
    case '\U{201C}' => '\''
    case '\U{201D}' => '\''
    case '\U{2018}' => '\''
    case '\U{2019}' => '\''
    case '\U{00A0}' => ' '
    case '\U{2013}' => '-'
    case '\U{2014}' => '-'
    case _ => ch
  }

  predicate IsMark(ch: char) {
    ch == '`' || ch == '*'
  }

  /** The visible characters of a text as they are compared, emphasis and code marks left out. */
  function Compared(isSpace: char -> bool, text: string): string {
    if text == [] then []
    else
      (if IsMark(text[0]) || isSpace(Alike(text[0])) then [] else [Alike(text[0])]) + Compared(isSpace, text[1..])
  }

  /** The text as it is compared, white space and line breaks where they were. */
  function AsCompared(text: string): string {
    if text == [] then []
    else (if IsMark(text[0]) then [] else [Alike(text[0])]) + AsCompared(text[1..])
  }

  lemma FoldIsAlike(ch: char)
    ensures FoldShape(ch) == Alike(ch)
    ensures IsMark(FoldShape(ch)) <==> IsMark(ch)
  {
  }

  lemma {:induction false} FoldIs(text: string)
    ensures FoldMarks(text) == AsCompared(text)
  {
    if text != [] {
      FoldIsAlike(text[0]);
      FoldIs(text[1..]);
    }
  }

  lemma {:induction false} InkOfAsCompared(isSpace: char -> bool, text: string)
    ensures Ink(isSpace, AsCompared(text)) == Compared(isSpace, text)
  {
    if text != [] {
      InkOfAsCompared(isSpace, text[1..]);
      if IsMark(text[0]) {
        assert AsCompared(text) == AsCompared(text[1..]);
      } else {
        InkFirst(isSpace, Alike(text[0]), AsCompared(text[1..]));
      }
    }
  }

  lemma InkFirst(isSpace: char -> bool, ch: char, s: string)
    ensures Ink(isSpace, [ch] + s) == (if isSpace(ch) then [] else [ch]) + Ink(isSpace, s)
  {
    assert ([ch] + s)[1..] == s;
  }

  lemma {:induction false} InkOfSqueeze(isSpace: char -> bool, s: string)
    requires isSpace(' ')
    ensures Ink(isSpace, Squeeze(isSpace, s)) == Ink(isSpace, s)
  {
    if s != [] {
      var n := |s| - 1;
      var p := Squeeze(isSpace, s[..n]);
      InkOfSqueeze(isSpace, s[..n]);
      assert s == s[..n] + [s[n]];
      InkAppend(isSpace, s[..n], [s[n]]);
      InkAppend(isSpace, p, [s[n]]);
      InkOfSpace(isSpace, ' ');
      InkBetween(isSpace, p, " ", [s[n]]);
      if isSpace(s[n]) {
        InkOfSpace(isSpace, s[n]);
      }
    }
  }

  lemma {:induction false} InkOfSqueezeAll(c: Chars, ls: seq<string>)
    requires c.isSpace(' ')
    ensures InkAll(c.isSpace, SqueezeAll(c, ls)) == InkAll(c.isSpace, ls)
  {
    if ls != [] {
      var l := Squeeze(c.isSpace, ls[0]);
      InkOfSqueeze(c.isSpace, ls[0]);
      InkOfSqueezeAll(c, ls[1..]);
      InkAllAppend(c.isSpace, if l == "" then [] else [l], SqueezeAll(c, ls[1..]));
      InkAllOne(c.isSpace, l);
    }
  }

  lemma {:induction false} InkOfSplit(isSpace: char -> bool, isBreak: char -> bool, s: string)
    requires forall ch :: isBreak(ch) ==> isSpace(ch)
    ensures InkAll(isSpace, SplitAt(isBreak, s)) == Ink(isSpace, s)
  {
    if s == [] {
      InkAllOne(isSpace, "");
    } else {
      var rest := SplitAt(isBreak, s[1..]);
      InkOfSplit(isSpace, isBreak, s[1..]);
      InkAllAppend(isSpace, [rest[0]], rest[1..]);
      InkAllOne(isSpace, rest[0]);
      assert rest == [rest[0]] + rest[1..];
      if isBreak(s[0]) {
        InkAllAppend(isSpace, [""], rest);
        InkAllOne(isSpace, "");
      } else {
        InkAllAppend(isSpace, [[s[0]] + rest[0]], rest[1..]);
        InkAllOne(isSpace, [s[0]] + rest[0]);
        InkAppend(isSpace, [s[0]], rest[0]);
        InkCons(isSpace, s);
      }
    }
  }

  /** Normalising keeps every visible character, as it is compared, and in order. */
  lemma NormKeepsVisible(c: Chars, text: string)
    requires c.Sane() && c.isSpace('\n')
    ensures Ink(c.isSpace, NormShape(c, text)) == Compared(c.isSpace, text)
  {
    var ls := SplitAt(ch => ch == '\n', FoldMarks(text));
    FoldIs(text);
    InkOfAsCompared(c.isSpace, text);
    InkOfSplit(c.isSpace, ch => ch == '\n', FoldMarks(text));
    InkOfSqueezeAll(c, ls);
    InkOfJoinLines(c.isSpace, SqueezeAll(c, ls));
  }

  // ----- And which white space

  predicate IsNewline(ch: char) {
    ch == '\n'
  }

  /** The lines of a text as they are compared, each its words with one space between. */
  function ComparedLines(c: Chars, text: string): (ls: seq<string>)
    ensures |ls| == |SplitAt(IsNewline, AsCompared(text))|
  {
    var raw := SplitAt(IsNewline, AsCompared(text));
    seq(|raw|, i requires 0 <= i < |raw| => Spaced(Words(c.isSpace, raw[i])))
  }

  function NonBlank(ls: seq<string>): (flags: seq<bool>)
    ensures |flags| == |ls| && forall i :: 0 <= i < |ls| ==> flags[i] == (ls[i] != "")
  {
    seq(|ls|, i requires 0 <= i < |ls| => ls[i] != "")
  }

  /** picked are the lines of ls at `at`. */
  predicate LinesAt(ls: seq<string>, at: seq<nat>, picked: seq<string>) {
    |picked| == |at| && forall i :: 0 <= i < |at| ==> at[i] < |ls| && picked[i] == ls[at[i]]
  }

  function Squeezed(c: Chars, raw: seq<string>): (ls: seq<string>)
    ensures |ls| == |raw|
    ensures forall i :: 0 <= i < |raw| ==> ls[i] == Squeeze(c.isSpace, raw[i])
  {
    seq(|raw|, i requires 0 <= i < |raw| => Squeeze(c.isSpace, raw[i]))
  }

  lemma {:induction false} SqueezeAllNext(c: Chars, raw: seq<string>)
    requires raw != []
    ensures var n := |raw| - 1;
            var l := Squeeze(c.isSpace, raw[n]);
            SqueezeAll(c, raw) == SqueezeAll(c, raw[..n]) + if l == "" then [] else [l]
  {
    var n := |raw| - 1;
    if n > 0 {
      SqueezeAllNext(c, raw[1..]);
      assert raw[1..][..n - 1] == raw[..n][1..];
    } else {
      assert raw[1..] == [];
    }
  }

  lemma {:induction false} SqueezeAllPicks(c: Chars, raw: seq<string>)
    ensures LinesAt(Squeezed(c, raw), Where(NonBlank(Squeezed(c, raw))), SqueezeAll(c, raw))
  {
    if raw != [] {
      var n := |raw| - 1;
      SqueezeAllPicks(c, raw[..n]);
      SqueezeAllNext(c, raw);
      assert Squeezed(c, raw)[..n] == Squeezed(c, raw[..n]);
      assert NonBlank(Squeezed(c, raw))[..n] == NonBlank(Squeezed(c, raw[..n]));
    }
  }

  /** Normalising leaves the lines that hold something, each its words with one space between. */
  lemma NormIsLines(c: Chars, text: string) returns (picked: seq<string>)
    ensures NormShape(c, text) == JoinLines(picked)
    ensures LinesAt(ComparedLines(c, text), Where(NonBlank(ComparedLines(c, text))), picked)
  {
    FoldIs(text);
    var raw := SplitAt(ch => ch == '\n', FoldMarks(text));
    SameSplit(ch => ch == '\n', IsNewline, FoldMarks(text));
    picked := SqueezeAll(c, raw);
    SqueezeAllPicks(c, raw);
    forall i | 0 <= i < |raw|
      ensures Squeezed(c, raw)[i] == Spaced(Words(c.isSpace, raw[i]))
    {
      SqueezeIsSpaced(c.isSpace, raw[i]);
    }
    assert Squeezed(c, raw) == ComparedLines(c, text);
  }

  lemma {:induction false} SameSplit(p: char -> bool, q: char -> bool, s: string)
    requires forall ch :: p(ch) <==> q(ch)
    ensures SplitAt(p, s) == SplitAt(q, s)
  {
    if s != [] {
      SameSplit(p, q, s[1..]);
    }
  }

  // ----- Which quotes are trusted

  /** Row i is the last one with the id. */
  predicate LastWith(rows: seq<Row>, id: nat, i: nat) {
    i < |rows| && rows[i].id == id && forall j :: i < j < |rows| ==> rows[j].id != id
  }

  lemma {:induction false} RowByIdIs(rows: seq<Row>, id: nat)
    ensures RowById(rows, id).Some? ==> exists i: nat :: LastWith(rows, id, i) && RowById(rows, id).value == rows[i]
    ensures forall i: nat :: LastWith(rows, id, i) ==> RowById(rows, id) == Some(rows[i])
  {
    if rows != [] {
      var n := |rows| - 1;
      if rows[n].id == id {
        assert LastWith(rows, id, n);
      } else {
        RowByIdIs(rows[..n], id);
        forall i: nat
          ensures LastWith(rows, id, i) <==> LastWith(rows[..n], id, i)
        {
        }
      }
    }
  }

  predicate SaidBy(s: Speaker, role: Role) {
    match s
    case AttorneySaid => role == User
    case AssistantSaid => role == Assistant
  }

  /** What a quote of a row must be. */
  predicate QuotesRow(c: Chars, q: Quote, r: Row) {
    && SaidBy(q.speaker, r.role) && q.text != ""
    && Contains(c.casefold(NormShape(c, r.content)), c.casefold(NormShape(c, q.text)))
    && Accepts(c, NormShape(c, r.content), NormShape(c, q.text))
  }

  /** A quote is trusted exactly when it cites a row in range, by its speaker,
      is not empty, and is found in it as whole sentences. */
  lemma TrustedIff(c: Chars, q: Quote, rows: seq<Row>, from: nat, upto: nat)
    ensures Trusted(c, q, rows, from, upto) <==>
            from <= q.rowId <= upto && exists i: nat :: LastWith(rows, q.rowId, i) && QuotesRow(c, q, rows[i])
  {
    RowByIdIs(rows, q.rowId);
  }

  /** The first requirement a quote does not meet, in the order they are tried. */
  ghost predicate IsFailure(c: Chars, q: Quote, rows: seq<Row>, from: nat, upto: nat, f: Failure) {
    if q.rowId < from || upto < q.rowId then f == OutsideRange
    else if forall i :: 0 <= i < |rows| ==> rows[i].id != q.rowId then f == NotInTranscript
    else exists i: nat :: LastWith(rows, q.rowId, i) && FailsRow(c, q, rows[i], f)
  }

  predicate FailsRow(c: Chars, q: Quote, r: Row, f: Failure) {
    if !SaidBy(q.speaker, r.role) then f == WrongSpeaker
    else if q.text == "" then f == EmptyQuote
    else if !Contains(c.casefold(NormShape(c, r.content)), c.casefold(NormShape(c, q.text))) then f == NotInMessage
    else f == NotASentence && !Accepts(c, NormShape(c, r.content), NormShape(c, q.text))
  }

  lemma FailureIs(c: Chars, q: Quote, rows: seq<Row>, from: nat, upto: nat)
    requires !Trusted(c, q, rows, from, upto)
    ensures IsFailure(c, q, rows, from, upto, QuoteFailure(c, q, rows, from, upto).value)
  {
    RowByIdIs(rows, q.rowId);
    if from <= q.rowId <= upto && RowById(rows, q.rowId).Some? {
      var i: nat :| LastWith(rows, q.rowId, i) && RowById(rows, q.rowId).value == rows[i];
      assert rows[i].id == q.rowId;
      FailureOfRow(c, q, rows, from, upto, rows[i]);
    }
  }

  lemma FailureOfRow(c: Chars, q: Quote, rows: seq<Row>, from: nat, upto: nat, r: Row)
    requires from <= q.rowId <= upto && RowById(rows, q.rowId) == Some(r) && !Trusted(c, q, rows, from, upto)
    ensures FailsRow(c, q, r, QuoteFailure(c, q, rows, from, upto).value)
  {
  }

  /** White space is white space in either case. */
  ghost predicate CaseKeepsSpace(c: Chars) {
    forall a, b :: c.sameLetter(a, b) ==> (c.isSpace(a) <==> c.isSpace(b))
  }

  lemma {:induction false} AlikeInk(c: Chars, s: string, t: string)
    requires CaseKeepsSpace(c) && |s| == |t| && forall k :: 0 <= k < |s| ==> c.sameLetter(s[k], t[k])
    ensures |Ink(c.isSpace, s)| == |Ink(c.isSpace, t)|
    ensures forall k :: 0 <= k < |Ink(c.isSpace, s)| ==> c.sameLetter(Ink(c.isSpace, s)[k], Ink(c.isSpace, t)[k])
  {
    if s != [] {
      AlikeInk(c, s[1..], t[1..]);
      assert c.sameLetter(s[0], t[0]);
    }
  }

  lemma OccursInInk(c: Chars, row: string, quote: string, p: nat)
    requires CaseKeepsSpace(c) && Occurs(c, row, quote, p)
    ensures Occurs(c, Ink(c.isSpace, row), Ink(c.isSpace, quote), |Ink(c.isSpace, row[..p])|)
  {
    var m := row[p..p + |quote|];
    assert row == row[..p] + m + row[p + |quote|..];
    InkAppend(c.isSpace, row[..p] + m, row[p + |quote|..]);
    InkAppend(c.isSpace, row[..p], m);
    AlikeInk(c, m, quote);
  }

  /** The visible characters of a trusted quote stand one after another in the
      row it cites, as they are compared, and that row's speaker is the one it names. */
  lemma TrustedStandsInRow(c: Chars, q: Quote, rows: seq<Row>, from: nat, upto: nat) returns (r: Row, k: nat)
    requires c.Sane() && c.isSpace('\n') && CaseKeepsSpace(c) && Trusted(c, q, rows, from, upto)
    ensures r in rows && r.id == q.rowId && from <= r.id <= upto && SaidBy(q.speaker, r.role)
    ensures Occurs(c, Compared(c.isSpace, r.content), Compared(c.isSpace, q.text), k)
  {
    TrustedIff(c, q, rows, from, upto);
    var i: nat :| LastWith(rows, q.rowId, i) && QuotesRow(c, q, rows[i]);
    r := rows[i];
    AcceptedIsWhole(c, NormShape(c, r.content), NormShape(c, q.text));
    var p: nat :| Occurs(c, NormShape(c, r.content), NormShape(c, q.text), p)
                  && Aligned(c, NormShape(c, r.content), NormShape(c, q.text), p);
    OccursInInk(c, NormShape(c, r.content), NormShape(c, q.text), p);
    NormKeepsVisible(c, r.content);
    NormKeepsVisible(c, q.text);
    k := |Ink(c.isSpace, NormShape(c, r.content)[..p])|;
  }

  // ----- What is read of the model's output

  predicate IsQuoteForm(ch: char) {
    ch in {'"', '\'', '\U{201C}', '\U{201D}', '\U{2018}', '\U{2019}', '\U{00AB}', '\U{00BB}'}
  }

  /** t is s[i..j], what is left of s without the characters of p at its ends. */
  ghost predicate Strips(p: char -> bool, s: string, i: nat, j: nat, t: string) {
    && i <= j <= |s| && t == s[i..j]
    && (forall k :: 0 <= k < i ==> p(s[k])) && (forall k :: j <= k < |s| ==> p(s[k]))
    && (i < j ==> !p(s[i]) && !p(s[j - 1]))
  }

  lemma {:induction false} TrimIs(p: char -> bool, s: string) returns (i: nat, j: nat)
    ensures Strips(p, s, i, j, Trim(p, s))
    decreases |s|
  {
    if s == [] {
      i, j := 0, 0;
    } else if p(s[0]) {
      i, j := TrimIs(p, s[1..]);
      StripsFirst(p, s, i, j, Trim(p, s[1..]));
      i, j := i + 1, j + 1;
    } else if p(s[|s| - 1]) {
      i, j := TrimIs(p, s[..|s| - 1]);
      StripsLast(p, s, i, j, Trim(p, s[..|s| - 1]));
    } else {
      i, j := 0, |s|;
      assert s[0..|s|] == s;
    }
  }

  lemma StripsFirst(p: char -> bool, s: string, i: nat, j: nat, t: string)
    requires s != [] && p(s[0]) && Strips(p, s[1..], i, j, t)
    ensures Strips(p, s, i + 1, j + 1, t)
  {
    assert s[1..][i..j] == s[i + 1..j + 1];
    assert forall k :: 0 < k < |s| ==> s[k] == s[1..][k - 1];
  }

  lemma StripsLast(p: char -> bool, s: string, i: nat, j: nat, t: string)
    requires s != [] && p(s[|s| - 1]) && Strips(p, s[..|s| - 1], i, j, t)
    ensures Strips(p, s, i, j, t)
  {
    var init := s[..|s| - 1];
    assert init[i..j] == s[i..j];
    assert forall k :: 0 <= k < |init| ==> s[k] == init[k];
  }

  lemma QuoteMarksAre(ch: char)
    ensures IsQuoteMark(ch) <==> IsQuoteForm(ch)
  {
  }

  /** A line is left out exactly when it is blank, or a fence: three backticks and letters. */
  lemma SkippedIff(c: Chars, line: string)
    ensures Skipped(c, line) <==>
            var t := Trim(c.isSpace, line);
            t == "" || (|t| >= 3 && t[0] == t[1] == t[2] == '`'
                        && forall k :: 3 <= k < |t| ==> 'a' <= t[k] <= 'z' || 'A' <= t[k] <= 'Z')
  {
    var t := Trim(c.isSpace, line);
    assert "```" <= t <==> |t| >= 3 && t[0] == t[1] == t[2] == '`' by {
      if |t| >= 3 && t[0] == t[1] == t[2] == '`' {
        assert t[..3] == "```";
      }
    }
  }

  /** Which lines are not left out. */
  function ReadOnes(c: Chars, lines: seq<string>): (flags: seq<bool>)
    ensures |flags| == |lines| && forall i :: 0 <= i < |lines| ==> flags[i] == !Skipped(c, lines[i])
  {
    seq(|lines|, i requires 0 <= i < |lines| => !Skipped(c, lines[i]))
  }

  /** qs are the quotes of the lines at `at`. */
  ghost predicate QuotesAt(c: Chars, lines: seq<string>, at: seq<nat>, qs: seq<Quote>) {
    |qs| == |at| && forall i :: 0 <= i < |at| ==>
      at[i] < |lines| && ParseLine(c, Trim(c.isSpace, lines[at[i]])) == Some(qs[i])
  }

  ghost predicate ReadAs(c: Chars, lines: seq<string>, r: Result<seq<Quote>, ParseError>) {
    match r
    case Ok(qs) => QuotesAt(c, lines, Where(ReadOnes(c, lines)), qs)
    case Fail(NotAQuoteLine(line)) => SomeOther(c, lines, line)
    case Fail(NoQuotes) => false
  }

  ghost predicate SomeOther(c: Chars, lines: seq<string>, line: string) {
    exists i :: FirstOther(c, lines, i, line)
  }

  /** Every line that is not left out is a quote, in its place; or the first that is none is told. */
  lemma {:induction false} ReadIs(c: Chars, lines: seq<string>)
    ensures ReadAs(c, lines, ParseAll(c, lines))
  {
    if lines != [] {
      var n := |lines| - 1;
      ReadIs(c, lines[..n]);
      ParseAllNext(c, lines);
      match ParseAll(c, lines[..n])
      case Fail(NotAQuoteLine(line)) => OtherStays(c, lines, line);
      case Ok(qs) =>
        if IsOther(c, lines[n]) {
          NoOther(c, lines[..n], qs);
          assert FirstOther(c, lines, n, Trim(c.isSpace, lines[n]));
        } else {
          QuotesNext(c, lines, qs);
        }
    }
  }

  lemma ParseAllNext(c: Chars, lines: seq<string>)
    requires lines != []
    ensures var n := |lines| - 1;
            var line := Trim(c.isSpace, lines[n]);
            ParseAll(c, lines) ==
            match ParseAll(c, lines[..n])
            case Fail(e) => Fail(e)
            case Ok(qs) =>
              if Skipped(c, lines[n]) then Ok(qs)
              else
                match ParseLine(c, line)
                case None => Fail(NotAQuoteLine(line))
                case Some(q) => Ok(qs + [q])
  {
    var n := |lines| - 1;
    assert ReadLines(c, lines)[..n] == ReadLines(c, lines[..n]);
    LastRead(ReadLines(c, lines), ReadLine(c, lines[n]));
    ReadLineIs(c, lines[n]);
  }

  lemma LastRead(rs: seq<Reading>, last: Reading)
    requires rs != [] && rs[|rs| - 1] == last
    ensures Collected(rs) ==
            match Collected(rs[..|rs| - 1])
            case Fail(e) => Fail(e)
            case Ok(qs) =>
              match last
              case Blank => Ok(qs)
              case Other(line) => Fail(NotAQuoteLine(line))
              case QuoteLine(q) => Ok(qs + [q])
  {
  }

  lemma ReadLineIs(c: Chars, rawLine: string)
    ensures var line := Trim(c.isSpace, rawLine);
            ReadLine(c, rawLine) ==
            if Skipped(c, rawLine) then Blank
            else
              match ParseLine(c, line)
              case None => Other(line)
              case Some(q) => QuoteLine(q)
  {
  }

  lemma OtherStays(c: Chars, lines: seq<string>, line: string)
    requires lines != [] && SomeOther(c, lines[..|lines| - 1], line)
    ensures SomeOther(c, lines, line)
  {
    var i :| FirstOther(c, lines[..|lines| - 1], i, line);
    assert FirstOther(c, lines, i, line);
  }

  lemma QuotesNext(c: Chars, lines: seq<string>, qs: seq<Quote>)
    requires lines != [] && QuotesAt(c, lines[..|lines| - 1], Where(ReadOnes(c, lines[..|lines| - 1])), qs)
    ensures var n := |lines| - 1;
            var q := ParseLine(c, Trim(c.isSpace, lines[n]));
            && (Skipped(c, lines[n]) ==> QuotesAt(c, lines, Where(ReadOnes(c, lines)), qs))
            && (!Skipped(c, lines[n]) && q.Some? ==> QuotesAt(c, lines, Where(ReadOnes(c, lines)), qs + [q.value]))
  {
    var n := |lines| - 1;
    assert ReadOnes(c, lines)[..n] == ReadOnes(c, lines[..n]);
  }

  /** Line i, trimmed, is the first that is neither left out nor a quote. */
  ghost predicate FirstOther(c: Chars, lines: seq<string>, i: int, line: string) {
    && 0 <= i < |lines| && line == Trim(c.isSpace, lines[i]) && IsOther(c, lines[i])
    && forall j :: 0 <= j < i ==> !IsOther(c, lines[j])
  }

  ghost predicate IsOther(c: Chars, line: string) {
    !Skipped(c, line) && ParseLine(c, Trim(c.isSpace, line)) == None
  }

  lemma NoOther(c: Chars, lines: seq<string>, qs: seq<Quote>)
    requires QuotesAt(c, lines, Where(ReadOnes(c, lines)), qs)
    ensures forall j :: 0 <= j < |lines| ==> !IsOther(c, lines[j])
  {
    forall j: nat | j < |lines|
      ensures !IsOther(c, lines[j])
    {
      WhereOf(ReadOnes(c, lines), j);
    }
  }
}
