// The JSON the model writes, with its white space, and with raw line breaks and
// tabs inside its strings: how it is repaired and how stacked values are cut
// apart (parseEditBlocks.ts, edit_parsing.py; strings as in section 7 of RFC 8259).

module JsonText {
  // ----- The repair of raw white space inside strings

  /** Where a character stands: inside a string or not, right after a live backslash or not. */
  datatype Mode = Mode(inString: bool, escapeNext: bool)

  const OUTSIDE := Mode(false, false)
  const INSIDE := Mode(true, false)

  predicate IsRaw(ch: char) {
    ch == '\n' || ch == '\r' || ch == '\t'
  }

  function EscapeLetter(ch: char): char {
    if ch == '\n' then 'n' else if ch == '\r' then 'r' else 't'
  }

  function Next(m: Mode, ch: char): Mode {
    if m.escapeNext then Mode(m.inString, false)
    else if m.inString && ch == '\\' then Mode(true, true)
    else if ch == '"' then Mode(!m.inString, false)
    else m
  }

  function Emit(m: Mode, ch: char): string {
    if !m.escapeNext && m.inString && IsRaw(ch) then ['\\', EscapeLetter(ch)] else [ch]
  }

  function ModeAfter(m: Mode, s: string): Mode
    decreases |s|
  {
    if s == [] then m else ModeAfter(Next(m, s[0]), s[1..])
  }

  function Repair(m: Mode, s: string): string
    decreases |s|
  {
    if s == [] then [] else Emit(m, s[0]) + Repair(Next(m, s[0]), s[1..])
  }

  method EscapeUnescapedWhitespaceInStrings(raw: string) returns (out: string)
    ensures out == Repair(OUTSIDE, raw)
  {
    out := "";
    var inString, escapeNext := false, false;
    for i := 0 to |raw|
      invariant out + Repair(Mode(inString, escapeNext), raw[i..]) == Repair(OUTSIDE, raw)
    {
      var ch := raw[i];
      RepairStep(out, Mode(inString, escapeNext), raw, i);
      if escapeNext {
        out := out + [ch];
        escapeNext := false;
        continue;
      }
      if inString && ch == '\\' {
        out := out + [ch];
        escapeNext := true;
        continue;
      }
      if ch == '"' {
        inString := !inString;
        out := out + [ch];
        continue;
      }
      if inString && IsRaw(ch) {
        out := out + ['\\', EscapeLetter(ch)];
      } else {
        out := out + [ch];
      }
    }
  }

  lemma RepairStep(out: string, m: Mode, raw: string, i: nat)
    requires i < |raw|
    ensures out + Repair(m, raw[i..]) == out + Emit(m, raw[i]) + Repair(Next(m, raw[i]), raw[i + 1..])
  {
    assert raw[i..][1..] == raw[i + 1..];
  }

  lemma {:induction false} ModeAfterAppend(m: Mode, a: string, b: string)
    ensures ModeAfter(m, a + b) == ModeAfter(ModeAfter(m, a), b)
    decreases |a|
  {
    if a == [] {
      assert a + b == b;
    } else {
      assert (a + b)[1..] == a[1..] + b;
      ModeAfterAppend(Next(m, a[0]), a[1..], b);
    }
  }

  lemma {:induction false} RepairAppend(m: Mode, a: string, b: string)
    ensures Repair(m, a + b) == Repair(m, a) + Repair(ModeAfter(m, a), b)
    decreases |a|
  {
    if a == [] {
      assert a + b == b;
    } else {
      assert (a + b)[1..] == a[1..] + b;
      RepairAppend(Next(m, a[0]), a[1..], b);
    }
  }

  /** What one character becomes is left alone by a second pass and leads to the same mode. */
  lemma EmitIsStable(m: Mode, ch: char)
    ensures Repair(m, Emit(m, ch)) == Emit(m, ch) && ModeAfter(m, Emit(m, ch)) == Next(m, ch)
  {
    var e := Emit(m, ch);
    if |e| == 2 {
      assert e == ['\\'] + [EscapeLetter(ch)];
      RepairAppend(m, ['\\'], [EscapeLetter(ch)]);
      ModeAfterAppend(m, ['\\'], [EscapeLetter(ch)]);
    }
  }

  /** The repair is idempotent and keeps the mode the text leads to. */
  lemma {:induction false} RepairIsIdempotent(m: Mode, s: string)
    ensures Repair(m, Repair(m, s)) == Repair(m, s)
    ensures ModeAfter(m, Repair(m, s)) == ModeAfter(m, s)
    decreases |s|
  {
    if s != [] {
      var e, rest := Emit(m, s[0]), Repair(Next(m, s[0]), s[1..]);
      EmitIsStable(m, s[0]);
      RepairIsIdempotent(Next(m, s[0]), s[1..]);
      RepairAppend(m, e, rest);
      ModeAfterAppend(m, e, rest);
    }
  }

  /** A raw break or tab inside a string, not right after a live backslash. */
  predicate RawInString(m: Mode, s: string, i: nat)
    requires i < |s|
  {
    IsRaw(s[i]) && ModeAfter(m, s[..i]) == INSIDE
  }

  /** The repair changes nothing exactly when no string holds a raw break or tab. */
  lemma {:induction false} RepairIsIdentityIff(m: Mode, s: string)
    ensures Repair(m, s) == s <==> forall i: nat :: i < |s| ==> !RawInString(m, s, i)
    decreases |s|
  {
    if s != [] {
      var m' := Next(m, s[0]);
      RepairIsIdentityIff(m', s[1..]);
      RepairNeverShortens(m', s[1..]);
      forall i: nat | i < |s| - 1
        ensures RawInString(m', s[1..], i) <==> RawInString(m, s, i + 1)
      {
        assert s[..i + 1][1..] == s[1..][..i];
      }
      if forall i: nat :: i < |s| ==> !RawInString(m, s, i) {
        assert !RawInString(m, s, 0) by { assert s[..0] == []; }
        forall i: nat | i < |s[1..]|
          ensures !RawInString(m', s[1..], i)
        {
          assert !RawInString(m, s, i + 1);
        }
        assert s == [s[0]] + s[1..];
      }
      if Repair(m, s) == s {
        assert |Emit(m, s[0])| == 1;
        assert Repair(m, s)[1..] == s[1..];
        forall i: nat | i < |s|
          ensures !RawInString(m, s, i)
        {
          if i > 0 {
            assert !RawInString(m', s[1..], i - 1);
          } else {
            assert s[..0] == [];
          }
        }
      }
    }
  }

  lemma {:induction false} RepairNeverShortens(m: Mode, s: string)
    ensures |Repair(m, s)| >= |s|
    decreases |s|
  {
    if s != [] {
      RepairNeverShortens(Next(m, s[0]), s[1..]);
    }
  }

  /** So a repaired text holds a raw break or tab in a string only right after a live backslash. */
  lemma RepairedIsClean(m: Mode, s: string, i: nat)
    requires i < |Repair(m, s)| && IsRaw(Repair(m, s)[i])
    ensures ModeAfter(m, Repair(m, s)[..i]).inString ==> ModeAfter(m, Repair(m, s)[..i]).escapeNext
  {
    RepairIsIdempotent(m, s);
    RepairIsIdentityIff(m, Repair(m, s));
    assert !RawInString(m, Repair(m, s), i);
  }

  // ----- Printed JSON

  /** One piece of a string: a character as itself, a backslash and a character,
      or a line break or tab the model failed to escape. */
  datatype Piece = Plain(ch: char) | Escaped(ch: char) | Raw(ch: char)

  datatype Json =
    | Scalar(text: string)
    | Str(pieces: seq<Piece>)
    | Arr(pad: string, items: Items)
    | Obj(pad: string, members: Members)

  datatype Items = NoItems | Item(before: string, value: Json, after: string, rest: Items)

  datatype Members =
    | NoMembers
    | Member(before: string, key: seq<Piece>, colonBefore: string, colonAfter: string, value: Json, after: string,
        rest: Members)

  predicate IsWhite(s: string) {
    forall k :: 0 <= k < |s| ==> s[k] == ' ' || IsRaw(s[k])
  }

  /** Characters that move neither scanner: no quote, bracket or brace. */
  predicate Inert(ch: char) {
    ch !in "\"{}[]"
  }

  predicate AllInert(s: string) {
    forall k :: 0 <= k < |s| ==> Inert(s[k])
  }

  predicate GoodPieces(ps: seq<Piece>) {
    forall k :: 0 <= k < |ps| ==>
      match ps[k]
      case Plain(ch) => ch != '"' && ch != '\\' && !IsRaw(ch)
      case Escaped(_) => true
      case Raw(ch) => IsRaw(ch)
  }

  predicate Good(j: Json) {
    match j
    case Scalar(text) => AllInert(text)
    case Str(ps) => GoodPieces(ps)
    case Arr(pad, items) => IsWhite(pad) && GoodItems(items)
    case Obj(pad, members) => IsWhite(pad) && GoodMembers(members)
  }

  predicate GoodItems(l: Items) {
    match l
    case NoItems => true
    case Item(b, v, a, rest) => IsWhite(b) && Good(v) && IsWhite(a) && GoodItems(rest)
  }

  predicate GoodMembers(l: Members) {
    match l
    case NoMembers => true
    case Member(b, k, cb, ca, v, a, rest) =>
      IsWhite(b) && GoodPieces(k) && IsWhite(cb) && IsWhite(ca) && Good(v) && IsWhite(a) && GoodMembers(rest)
  }

  /** A piece as the model wrote it, or as strict JSON writes it. */
  function PrintPiece(p: Piece, strict: bool): string {
    match p
    case Plain(ch) => [ch]
    case Escaped(ch) => ['\\', ch]
    case Raw(ch) => if strict then ['\\', EscapeLetter(ch)] else [ch]
  }

  function PrintPieces(ps: seq<Piece>, strict: bool): string {
    if ps == [] then [] else PrintPiece(ps[0], strict) + PrintPieces(ps[1..], strict)
  }

  function PrintString(ps: seq<Piece>, strict: bool): string {
    ['"'] + (PrintPieces(ps, strict) + ['"'])
  }

  function Print(j: Json, strict: bool): string {
    match j
    case Scalar(text) => text
    case Str(ps) => PrintString(ps, strict)
    case Arr(pad, items) => ['['] + (pad + (PrintItems(items, strict) + [']']))
    case Obj(pad, members) => ['{'] + (pad + (PrintMembers(members, strict) + ['}']))
  }

  function PrintItems(l: Items, strict: bool): string {
    match l
    case NoItems => []
    case Item(b, v, a, rest) =>
      b + (Print(v, strict) + (a + ((if rest.NoItems? then "" else ",") + PrintItems(rest, strict))))
  }

  function PrintMembers(l: Members, strict: bool): string {
    match l
    case NoMembers => []
    case Member(b, k, cb, ca, v, a, rest) =>
      b + (PrintString(k, strict) + (cb + (":" + (ca + (Print(v, strict) + (a +
      ((if rest.NoMembers? then "" else ",") + PrintMembers(rest, strict))))))))
  }

  // ----- The repair turns what the model wrote into strict JSON

  ghost predicate Repairs(loose: string, strict: string) {
    Repair(OUTSIDE, loose) == strict && ModeAfter(OUTSIDE, loose) == OUTSIDE
  }

  lemma RepairsAppend(a: string, a': string, b: string, b': string)
    requires Repairs(a, a') && Repairs(b, b')
    ensures Repairs(a + b, a' + b')
  {
    RepairAppend(OUTSIDE, a, b);
    ModeAfterAppend(OUTSIDE, a, b);
  }

  lemma {:induction false} InertRepairs(s: string)
    requires forall k :: 0 <= k < |s| ==> s[k] != '"'
    ensures Repairs(s, s)
  {
    if s != [] {
      InertRepairs(s[1..]);
      assert s == [s[0]] + s[1..];
    }
  }

  lemma {:induction false} PiecesRepair(ps: seq<Piece>)
    requires GoodPieces(ps)
    ensures Repair(INSIDE, PrintPieces(ps, false)) == PrintPieces(ps, true)
    ensures ModeAfter(INSIDE, PrintPieces(ps, false)) == INSIDE
  {
    if ps != [] {
      var p := PrintPiece(ps[0], false);
      PiecesRepair(ps[1..]);
      RepairAppend(INSIDE, p, PrintPieces(ps[1..], false));
      ModeAfterAppend(INSIDE, p, PrintPieces(ps[1..], false));
      if ps[0].Escaped? {
        assert p[1..] == [ps[0].ch];
      }
    }
  }

  lemma StringRepairs(ps: seq<Piece>)
    requires GoodPieces(ps)
    ensures Repairs(PrintString(ps, false), PrintString(ps, true))
  {
    var body := PrintPieces(ps, false);
    PiecesRepair(ps);
    assert PrintString(ps, false)[1..] == body + ['"'];
    RepairAppend(INSIDE, body, ['"']);
    ModeAfterAppend(INSIDE, body, ['"']);
  }

  lemma {:induction false} PrintRepairs(j: Json)
    requires Good(j)
    ensures Repairs(Print(j, false), Print(j, true))
  {
    match j
    case Scalar(text) => InertRepairs(text);
    case Str(ps) => StringRepairs(ps);
    case Arr(pad, items) =>
      ItemsRepair(items);
      InertRepairs("[");
      InertRepairs("]");
      InertRepairs(pad);
      RepairsAppend(PrintItems(items, false), PrintItems(items, true), "]", "]");
      RepairsAppend(pad, pad, PrintItems(items, false) + "]", PrintItems(items, true) + "]");
      RepairsAppend("[", "[", pad + (PrintItems(items, false) + "]"), pad + (PrintItems(items, true) + "]"));
    case Obj(pad, members) =>
      MembersRepair(members);
      InertRepairs("{");
      InertRepairs("}");
      InertRepairs(pad);
      RepairsAppend(PrintMembers(members, false), PrintMembers(members, true), "}", "}");
      RepairsAppend(pad, pad, PrintMembers(members, false) + "}", PrintMembers(members, true) + "}");
      RepairsAppend("{", "{", pad + (PrintMembers(members, false) + "}"), pad + (PrintMembers(members, true) + "}"));
  }

  lemma {:induction false} ItemsRepair(l: Items)
    requires GoodItems(l)
    ensures Repairs(PrintItems(l, false), PrintItems(l, true))
  {
    match l
    case NoItems =>
    case Item(b, v, a, rest) =>
      var sep := if rest.NoItems? then "" else ",";
      PrintRepairs(v);
      ItemsRepair(rest);
      InertRepairs(sep);
      InertRepairs(a);
      InertRepairs(b);
      var t, t' := PrintItems(rest, false), PrintItems(rest, true);
      RepairsAppend(sep, sep, t, t');
      RepairsAppend(a, a, sep + t, sep + t');
      RepairsAppend(Print(v, false), Print(v, true), a + (sep + t), a + (sep + t'));
      RepairsAppend(b, b, Print(v, false) + (a + (sep + t)), Print(v, true) + (a + (sep + t')));
  }

  lemma {:induction false} MembersRepair(l: Members)
    requires GoodMembers(l)
    ensures Repairs(PrintMembers(l, false), PrintMembers(l, true))
  {
    match l
    case NoMembers =>
    case Member(b, k, cb, ca, v, a, rest) =>
      var sep := if rest.NoMembers? then "" else ",";
      StringRepairs(k);
      PrintRepairs(v);
      MembersRepair(rest);
      InertRepairs(sep);
      InertRepairs(a);
      InertRepairs(ca);
      InertRepairs(":");
      InertRepairs(cb);
      InertRepairs(b);
      var t, t' := PrintMembers(rest, false), PrintMembers(rest, true);
      RepairsAppend(sep, sep, t, t');
      t, t' := sep + t, sep + t';
      RepairsAppend(a, a, t, t');
      t, t' := a + t, a + t';
      RepairsAppend(Print(v, false), Print(v, true), t, t');
      t, t' := Print(v, false) + t, Print(v, true) + t';
      RepairsAppend(ca, ca, t, t');
      t, t' := ca + t, ca + t';
      RepairsAppend(":", ":", t, t');
      t, t' := ":" + t, ":" + t';
      RepairsAppend(cb, cb, t, t');
      t, t' := cb + t, cb + t';
      RepairsAppend(PrintString(k, false), PrintString(k, true), t, t');
      t, t' := PrintString(k, false) + t, PrintString(k, true) + t';
      RepairsAppend(b, b, t, t');
  }
}

// Stacked values: one JSON object or array after another, cut apart by depth and string state.
module JsonScan {
  import opened Wrappers
  import opened JsonText

  /** The scanner's variables; `cuts` are the values found so far, as [start, end). */
  datatype Scan = Scan(
    pos: nat, depth: nat, inString: bool, escapeNext: bool, start: Option<nat>, cuts: seq<(nat, nat)>)

  const BEGIN := Scan(0, 0, false, false, None, [])

  predicate Opens(ch: char) {
    ch == '{' || ch == '['
  }

  predicate Closes(ch: char) {
    ch == '}' || ch == ']'
  }

  function Advance(st: Scan, ch: char): Scan {
    var next := st.(pos := st.pos + 1);
    if st.escapeNext then next.(escapeNext := false)
    else if st.inString then
      if ch == '\\' then next.(escapeNext := true) else if ch == '"' then next.(inString := false) else next
    else if ch == '"' then next.(inString := true)
    else if Opens(ch) then
      next.(depth := st.depth + 1, start := if st.depth == 0 then Some(st.pos) else st.start)
    else if Closes(ch) && st.depth > 0 then
      if st.depth == 1 && st.start.Some? then
        next.(depth := 0, start := None, cuts := st.cuts + [(st.start.value, st.pos + 1)])
      else next.(depth := st.depth - 1)
    else next
  }

  function ScanAll(st: Scan, s: string): Scan
    decreases |s|
  {
    if s == [] then st else ScanAll(Advance(st, s[0]), s[1..])
  }

  lemma {:induction false} ScanAppend(st: Scan, a: string, b: string)
    ensures ScanAll(st, a + b) == ScanAll(ScanAll(st, a), b)
    decreases |a|
  {
    if a == [] {
      assert a + b == b;
    } else {
      assert (a + b)[1..] == a[1..] + b;
      ScanAppend(Advance(st, a[0]), a[1..], b);
    }
  }

  // ----- Inside a value nothing but the position moves

  /** Between two tokens, inside a value. */
  predicate Within(st: Scan) {
    st.depth > 0 && !st.inString && !st.escapeNext
  }

  function Moved(st: Scan, n: nat): Scan {
    st.(pos := st.pos + n)
  }

  /** s leaves the scanner where it was, but for the position. */
  ghost predicate Balanced(s: string) {
    forall st :: Within(st) ==> ScanAll(st, s) == Moved(st, |s|)
  }

  lemma BalancedAppend(a: string, b: string)
    requires Balanced(a) && Balanced(b)
    ensures Balanced(a + b)
  {
    forall st | Within(st)
      ensures ScanAll(st, a + b) == Moved(st, |a + b|)
    {
      ScanAppend(st, a, b);
      assert Within(Moved(st, |a|));
    }
  }

  lemma {:induction false} InertMoves(st: Scan, s: string)
    requires AllInert(s) && !st.inString && !st.escapeNext
    ensures ScanAll(st, s) == Moved(st, |s|)
    decreases |s|
  {
    if s != [] {
      assert Inert(s[0]);
      InertMoves(Advance(st, s[0]), s[1..]);
    }
  }

  lemma InertIsBalanced(s: string)
    requires AllInert(s)
    ensures Balanced(s)
  {
    forall st | Within(st)
      ensures ScanAll(st, s) == Moved(st, |s|)
    {
      InertMoves(st, s);
    }
  }

  lemma WhiteIsBalanced(s: string)
    requires IsWhite(s)
    ensures Balanced(s)
  {
    InertIsBalanced(s);
  }

  lemma {:induction false} PiecesMove(st: Scan, ps: seq<Piece>)
    requires GoodPieces(ps) && st.inString && !st.escapeNext
    ensures ScanAll(st, PrintPieces(ps, true)) == Moved(st, |PrintPieces(ps, true)|)
    decreases |ps|
  {
    if ps != [] {
      var p := PrintPiece(ps[0], true);
      ScanAppend(st, p, PrintPieces(ps[1..], true));
      if |p| == 2 {
        assert p == [p[0]] + [p[1]];
        ScanAppend(st, [p[0]], [p[1]]);
      }
      assert ScanAll(st, p) == Moved(st, |p|);
      PiecesMove(Moved(st, |p|), ps[1..]);
    }
  }

  /** At any depth a string moves nothing but the position. */
  lemma StringMoves(st: Scan, ps: seq<Piece>)
    requires GoodPieces(ps) && !st.inString && !st.escapeNext
    ensures ScanAll(st, PrintString(ps, true)) == Moved(st, |PrintString(ps, true)|)
  {
    var body := PrintPieces(ps, true);
    var inside := Moved(st, 1).(inString := true);
    assert PrintString(ps, true)[1..] == body + ['"'];
    ScanAppend(inside, body, ['"']);
    PiecesMove(inside, ps);
    assert ScanAll(Moved(inside, |body|), ['"']) == Moved(st, |body| + 2);
  }

  lemma StringIsBalanced(ps: seq<Piece>)
    requires GoodPieces(ps)
    ensures Balanced(PrintString(ps, true))
  {
    forall st | Within(st)
      ensures ScanAll(st, PrintString(ps, true)) == Moved(st, |PrintString(ps, true)|)
    {
      StringMoves(st, ps);
    }
  }

  lemma ScanBracketed(st: Scan, open: char, inner: string, close: char)
    requires Opens(open) && Closes(close) && Balanced(inner) && !st.inString && !st.escapeNext
    ensures ScanAll(st, [open] + (inner + [close])) == Advance(Moved(Advance(st, open), |inner|), close)
  {
    var inside := Advance(st, open);
    assert Within(inside);
    ScanAppend(st, [open], inner + [close]);
    ScanAppend(inside, inner, [close]);
  }

  /** The state after a value of n characters was cut out. */
  function CutAt(st: Scan, n: nat): Scan {
    Moved(st, n).(start := None, cuts := st.cuts + [(st.pos, st.pos + n)])
  }

  /** At depth 0 a bracketed text whose inside is balanced is cut out whole. */
  lemma BracketedIsCut(st: Scan, open: char, inner: string, close: char, s: string)
    requires Opens(open) && Closes(close) && Balanced(inner) && !st.inString && !st.escapeNext && st.depth == 0
    requires s == [open] + (inner + [close])
    ensures ScanAll(st, s) == CutAt(st, |s|)
  {
    ScanBracketed(st, open, inner, close);
  }

  lemma BracketedIsBalanced(open: char, inner: string, close: char)
    requires Opens(open) && Closes(close) && Balanced(inner)
    ensures Balanced([open] + (inner + [close]))
  {
    forall st | Within(st)
      ensures ScanAll(st, [open] + (inner + [close])) == Moved(st, |[open] + (inner + [close])|)
    {
      ScanBracketed(st, open, inner, close);
    }
  }

  predicate Composite(j: Json) {
    j.Arr? || j.Obj?
  }

  /** What stands between a composite value's brackets. */
  function Inside(j: Json): string
    requires Composite(j)
  {
    match j
    case Arr(pad, items) => pad + PrintItems(items, true)
    case Obj(pad, members) => pad + PrintMembers(members, true)
  }

  function OpenOf(j: Json): char {
    if j.Arr? then '[' else '{'
  }

  function CloseOf(j: Json): char {
    if j.Arr? then ']' else '}'
  }

  lemma PrintsBracketed(j: Json)
    requires Composite(j)
    ensures Print(j, true) == [OpenOf(j)] + (Inside(j) + [CloseOf(j)])
    ensures |Print(j, true)| == |Inside(j)| + 2
  {
    match j
    case Arr(pad, items) => assert pad + (PrintItems(items, true) + [']']) == (pad + PrintItems(items, true)) + [']'];
    case Obj(pad, members) =>
      assert pad + (PrintMembers(members, true) + ['}']) == (pad + PrintMembers(members, true)) + ['}'];
  }

  lemma {:induction false} PrintIsBalanced(j: Json)
    requires Good(j)
    ensures Balanced(Print(j, true))
    ensures Composite(j) ==> Balanced(Inside(j))
  {
    match j
    case Scalar(text) => InertIsBalanced(text);
    case Str(ps) => StringIsBalanced(ps);
    case Arr(pad, items) =>
      WhiteIsBalanced(pad);
      ItemsAreBalanced(items);
      BalancedAppend(pad, PrintItems(items, true));
      BracketedIsBalanced('[', Inside(j), ']');
      PrintsBracketed(j);
    case Obj(pad, members) =>
      WhiteIsBalanced(pad);
      MembersAreBalanced(members);
      BalancedAppend(pad, PrintMembers(members, true));
      BracketedIsBalanced('{', Inside(j), '}');
      PrintsBracketed(j);
  }

  lemma {:induction false} ItemsAreBalanced(l: Items)
    requires GoodItems(l)
    ensures Balanced(PrintItems(l, true))
  {
    match l
    case NoItems =>
    case Item(b, v, a, rest) =>
      var sep := if rest.NoItems? then "" else ",";
      PrintIsBalanced(v);
      ItemsAreBalanced(rest);
      InertIsBalanced(sep);
      WhiteIsBalanced(a);
      WhiteIsBalanced(b);
      var t := PrintItems(rest, true);
      BalancedAppend(sep, t);
      BalancedAppend(a, sep + t);
      BalancedAppend(Print(v, true), a + (sep + t));
      BalancedAppend(b, Print(v, true) + (a + (sep + t)));
  }

  lemma {:induction false} MembersAreBalanced(l: Members)
    requires GoodMembers(l)
    ensures Balanced(PrintMembers(l, true))
  {
    match l
    case NoMembers =>
    case Member(b, k, cb, ca, v, a, rest) =>
      var sep := if rest.NoMembers? then "" else ",";
      StringIsBalanced(k);
      PrintIsBalanced(v);
      MembersAreBalanced(rest);
      InertIsBalanced(sep);
      InertIsBalanced(":");
      WhiteIsBalanced(a);
      WhiteIsBalanced(ca);
      WhiteIsBalanced(cb);
      WhiteIsBalanced(b);
      var t := PrintMembers(rest, true);
      BalancedAppend(sep, t);
      t := sep + t;
      BalancedAppend(a, t);
      t := a + t;
      BalancedAppend(Print(v, true), t);
      t := Print(v, true) + t;
      BalancedAppend(ca, t);
      t := ca + t;
      BalancedAppend(":", t);
      t := ":" + t;
      BalancedAppend(cb, t);
      t := cb + t;
      BalancedAppend(PrintString(k, true), t);
      t := PrintString(k, true) + t;
      BalancedAppend(b, t);
  }

  // ----- Stacked values

  /** White space or a comma. */
  predicate IsGapChar(ch: char) {
    ch == ' ' || ch == ',' || IsRaw(ch)
  }

  predicate IsGap(s: string) {
    forall k :: 0 <= k < |s| ==> IsGapChar(s[k])
  }

  /** Values one after another, each after a gap. A scalar is any text without
      quotes and brackets: a number, a keyword, or words that are no JSON at all. */
  datatype Stack = Bottom(gap: string) | Next(gap: string, value: Json, rest: Stack)

  predicate GoodStack(l: Stack) {
    match l
    case Bottom(g) => IsGap(g)
    case Next(g, v, rest) => IsGap(g) && Good(v) && (v.Scalar? ==> HasStart(v.text)) && GoodStack(rest)
  }

  predicate HasStart(s: string) {
    s != "" && !IsGapChar(s[0])
  }

  function PrintStack(l: Stack, strict: bool): string {
    match l
    case Bottom(g) => g
    case Next(g, v, rest) => g + (Print(v, strict) + PrintStack(rest, strict))
  }

  /** The texts of the objects and arrays. */
  function Texts(l: Stack): seq<string> {
    match l
    case Bottom(_) => []
    case Next(_, v, rest) => (if Composite(v) then [Print(v, true)] else []) + Texts(rest)
  }

  /** The texts of the cuts. */
  function Slices(s: string, cuts: seq<(nat, nat)>): seq<string>
    requires forall i :: 0 <= i < |cuts| ==> cuts[i].0 <= cuts[i].1 <= |s|
  {
    seq(|cuts|, i requires 0 <= i < |cuts| => s[cuts[i].0..cuts[i].1])
  }

  ghost predicate CutsInto(st: Scan, s: string, texts: seq<string>) {
    && (forall i :: 0 <= i < |st.cuts| ==> st.cuts[i].0 <= st.cuts[i].1 <= |s|)
    && Slices(s, st.cuts) == texts
  }

  lemma StackRepairs(l: Stack)
    requires GoodStack(l)
    ensures Repairs(PrintStack(l, false), PrintStack(l, true))
  {
    match l
    case Bottom(g) => InertRepairs(g);
    case Next(g, v, rest) =>
      InertRepairs(g);
      PrintRepairs(v);
      StackRepairs(rest);
      RepairsAppend(Print(v, false), Print(v, true), PrintStack(rest, false), PrintStack(rest, true));
      RepairsAppend(g, g, Print(v, false) + PrintStack(rest, false), Print(v, true) + PrintStack(rest, true));
  }

  lemma CompositeIsCut(st: Scan, j: Json)
    requires Good(j) && Composite(j) && st.depth == 0 && !st.inString && !st.escapeNext
    ensures ScanAll(st, Print(j, true)) == CutAt(st, |Print(j, true)|)
  {
    PrintIsBalanced(j);
    PrintsBracketed(j);
    BracketedIsCut(st, OpenOf(j), Inside(j), CloseOf(j), Print(j, true));
  }

  /** A gap and a value more: one text more. */
  lemma CutsExtend(cuts: seq<(nat, nat)>, before: string, g: string, p: string, texts: seq<string>)
    requires forall i :: 0 <= i < |cuts| ==> cuts[i].0 <= cuts[i].1 <= |before|
    requires Slices(before, cuts) == texts
    ensures var from := |before| + |g|;
            Slices(before + (g + p), cuts + [(from, from + |p|)]) == texts + [p]
  {
    var from := |before| + |g|;
    var s := before + (g + p);
    assert s[from..from + |p|] == p;
    CutsStay(cuts, before, g + p);
    var all := Slices(s, cuts + [(from, from + |p|)]);
    forall i | 0 <= i < |cuts|
      ensures all[i] == texts[i]
    {
      assert all[i] == Slices(s, cuts)[i];
    }
  }

  /** The state after a value of n characters at depth 0: only an object or array is cut out. */
  function Past(st: Scan, v: Json, n: nat): Scan {
    if Composite(v) then CutAt(st, n) else Moved(st, n)
  }

  lemma ValueIsPassed(st: Scan, v: Json)
    requires Good(v) && st.depth == 0 && !st.inString && !st.escapeNext
    ensures ScanAll(st, Print(v, true)) == Past(st, v, |Print(v, true)|)
  {
    match v
    case Scalar(text) => InertMoves(st, text);
    case Str(ps) => StringMoves(st, ps);
    case Arr(_, _) => CompositeIsCut(st, v);
    case Obj(_, _) => CompositeIsCut(st, v);
  }

  lemma ScanNext(st: Scan, g: string, v: Json, r: string)
    requires IsGap(g) && Good(v) && st.depth == 0 && !st.inString && !st.escapeNext
    ensures ScanAll(st, g + (Print(v, true) + r)) == ScanAll(Past(Moved(st, |g|), v, |Print(v, true)|), r)
  {
    InertMoves(st, g);
    ScanAppend(st, g, Print(v, true) + r);
    ScanAppend(Moved(st, |g|), Print(v, true), r);
    ValueIsPassed(Moved(st, |g|), v);
  }

  lemma CutsIntoNext(st: Scan, before: string, g: string, v: Json, texts: seq<string>)
    requires CutsInto(st, before, texts) && st.pos == |before|
    ensures var p := Print(v, true);
            CutsInto(Past(Moved(st, |g|), v, |p|), before + (g + p), texts + if Composite(v) then [p] else [])
  {
    var p := Print(v, true);
    if Composite(v) {
      CutsExtend(st.cuts, before, g, p, texts);
    } else {
      CutsStay(st.cuts, before, g + p);
      assert texts + [] == texts;
    }
  }

  /** From a state between values, the scanner cuts exactly the stacked texts, in order. */
  lemma {:induction false} StackIsCut(st: Scan, before: string, l: Stack, texts: seq<string>)
    requires GoodStack(l) && st.pos == |before| && st.depth == 0 && !st.inString && !st.escapeNext
    requires CutsInto(st, before, texts)
    ensures CutsInto(ScanAll(st, PrintStack(l, true)), before + PrintStack(l, true), texts + Texts(l))
    decreases l
  {
    match l
    case Bottom(g) =>
      InertMoves(st, g);
      CutsStay(st.cuts, before, g);
      assert texts + [] == texts;
    case Next(g, v, rest) =>
      var p, r := Print(v, true), PrintStack(rest, true);
      var here := if Composite(v) then [p] else [];
      ScanNext(st, g, v, r);
      CutsIntoNext(st, before, g, v, texts);
      StackIsCut(Past(Moved(st, |g|), v, |p|), before + (g + p), rest, texts + here);
      Regroup(before, g, p, r);
      Regroup(texts, [], here, Texts(rest));
  }

  lemma Regroup<T>(a: seq<T>, b: seq<T>, c: seq<T>, d: seq<T>)
    ensures a + (b + (c + d)) == (a + (b + c)) + d
    ensures b == [] ==> a + (c + d) == (a + c) + d
  {
  }

  lemma CutsStay(cuts: seq<(nat, nat)>, s: string, t: string)
    requires forall i :: 0 <= i < |cuts| ==> cuts[i].0 <= cuts[i].1 <= |s|
    ensures Slices(s + t, cuts) == Slices(s, cuts)
  {
    forall i | 0 <= i < |cuts|
      ensures (s + t)[cuts[i].0..cuts[i].1] == s[cuts[i].0..cuts[i].1]
    {
    }
  }

  // ----- iterJsonValues

  /** JSON.parse, on the text and then on the repaired text. */
  function TolerantParse<V>(parse: string -> Option<V>, raw: string): Option<V> {
    if parse(raw).Some? then parse(raw) else parse(Repair(OUTSIDE, raw))
  }

  /** The values of the texts that parse. */
  function Parsed<V>(parse: string -> Option<V>, texts: seq<string>): seq<V> {
    if texts == [] then []
    else
      var p := Parsed(parse, texts[..|texts| - 1]);
      match parse(texts[|texts| - 1])
      case None => p
      case Some(v) => p + [v]
  }

  lemma {:induction false} CutsAreInside(st: Scan, s: string)
    requires st.start.Some? ==> st.start.value <= st.pos
    requires forall i :: 0 <= i < |st.cuts| ==> st.cuts[i].0 <= st.cuts[i].1 <= st.pos
    ensures var st' := ScanAll(st, s);
            && st'.pos == st.pos + |s| && (st'.start.Some? ==> st'.start.value <= st'.pos)
            && forall i :: 0 <= i < |st'.cuts| ==> st'.cuts[i].0 <= st'.cuts[i].1 <= st'.pos
    decreases |s|
  {
    if s != [] {
      CutsAreInside(Advance(st, s[0]), s[1..]);
    }
  }

  /** The texts the scanner cuts out of s. */
  function Pieces(s: string): seq<string> {
    CutsAreInside(BEGIN, s);
    Slices(s, ScanAll(BEGIN, s).cuts)
  }

  function Values<V>(parse: string -> Option<V>, raw: string): seq<V> {
    match TolerantParse(parse, raw)
    case Some(whole) => [whole]
    case None => Parsed(parse, Pieces(Repair(OUTSIDE, raw)))
  }

  method IterJsonValues<V>(parse: string -> Option<V>, raw: string) returns (values: seq<V>)
    ensures values == Values(parse, raw)
  {
    var whole := parse(raw);
    if whole.Some? {
      return [whole.value];
    }
    var s := EscapeUnescapedWhitespaceInStrings(raw);
    whole := parse(s);
    if whole.Some? {
      return [whole.value];
    }
    values := [];
    var depth: nat, inString, escapeNext, start := 0, false, false, -1;
    ghost var cuts: seq<(nat, nat)> := [];
    for i := 0 to |s|
      invariant start >= 0 ==> start <= i
      invariant ScanAll(BEGIN, s[..i]) ==
              Scan(i, depth, inString, escapeNext, if start < 0 then None else Some(start), cuts)
      invariant forall k :: 0 <= k < |cuts| ==> cuts[k].0 <= cuts[k].1 <= i
      invariant values == Parsed(parse, Slices(s, cuts))
    {
      var ch := s[i];
      ScanOne(s, i);
      if escapeNext {
        escapeNext := false;
        continue;
      }
      if inString {
        if ch == '\\' {
          escapeNext := true;
        } else if ch == '"' {
          inString := false;
        }
        continue;
      }
      if ch == '"' {
        inString := true;
      } else if Opens(ch) {
        if depth == 0 {
          start := i;
        }
        depth := depth + 1;
      } else if Closes(ch) {
        if depth > 0 {
          depth := depth - 1;
          if depth == 0 && start >= 0 {
            var v := parse(s[start..i + 1]);
            if v.Some? {
              values := values + [v.value];
            }
            SlicesOneMore(s, cuts, start, i + 1);
            cuts := cuts + [(start, i + 1)];
            start := -1;
          }
        }
      }
    }
    assert s[..|s|] == s;
  }

  lemma ScanOne(s: string, i: nat)
    requires i < |s|
    ensures ScanAll(BEGIN, s[..i + 1]) == Advance(ScanAll(BEGIN, s[..i]), s[i])
  {
    assert s[..i + 1] == s[..i] + [s[i]];
    ScanAppend(BEGIN, s[..i], [s[i]]);
  }

  lemma SlicesOneMore(s: string, cuts: seq<(nat, nat)>, from: nat, stop: nat)
    requires from <= stop <= |s| && forall i :: 0 <= i < |cuts| ==> cuts[i].0 <= cuts[i].1 <= |s|
    ensures Slices(s, cuts + [(from, stop)]) == Slices(s, cuts) + [s[from..stop]]
    ensures Slices(s, cuts + [(from, stop)])[..|cuts|] == Slices(s, cuts)
  {
  }

  /** Whatever the strings hold, and however the model broke its lines inside
      them: what is cut out of stacked objects and arrays is each one's strict text, in order. */
  lemma StackIsSplit(l: Stack)
    requires GoodStack(l)
    ensures Pieces(Repair(OUTSIDE, PrintStack(l, false))) == Texts(l)
  {
    StackRepairs(l);
    StackIsCut(BEGIN, "", l, []);
    assert "" + PrintStack(l, true) == PrintStack(l, true);
    assert [] + Texts(l) == Texts(l);
  }

  // ----- The backend's reading of the same text

  /** First index from i on that is no separator. */
  function SkipGap(s: string, i: nat): (k: nat)
    requires i <= |s|
    ensures i <= k <= |s|
    decreases |s| - i
  {
    if i < |s| && IsGapChar(s[i]) then SkipGap(s, i + 1) else i
  }

  /** raw_decode reads one value at an index and says where it ends. */
  type Decoder<!V> = (string, nat) -> Option<(V, nat)>

  function Decoded<V>(decode: Decoder<V>, s: string, idx: nat): seq<V>
    requires idx <= |s|
    decreases |s| - idx
  {
    var i := SkipGap(s, idx);
    if i >= |s| then []
    else
      match decode(s, i)
      case None => []
      case Some((v, end)) => if i < end <= |s| then [v] + Decoded(decode, s, end) else [v]
  }

  /** What a parser makes of a stacked value, nothing of a malformed one, and
      whether that is an object or array. */
  datatype Reading<V> = Reading(composite: bool, value: Option<V>)

  function Readings<V>(l: Stack, value: Json -> Option<V>): seq<Reading<V>> {
    match l
    case Bottom(_) => []
    case Next(_, v, rest) => [Reading(Composite(v), value(v))] + Readings(rest, value)
  }

  /** The well-formed objects and arrays. */
  function AllValid<V>(rs: seq<Reading<V>>): seq<V> {
    if rs == [] then []
    else (if rs[0].composite && rs[0].value.Some? then [rs[0].value.value] else []) + AllValid(rs[1..])
  }

  /** The values before the first malformed one. */
  function BeforeInvalid<V>(rs: seq<Reading<V>>): seq<V> {
    if rs == [] then []
    else
      match rs[0].value
      case None => []
      case Some(v) => [v] + BeforeInvalid(rs[1..])
  }

  /** Reading i is well formed, and none before it is malformed. */
  ghost predicate Reached<V>(rs: seq<Reading<V>>, i: nat)
    requires i < |rs|
  {
    rs[i].value.Some? && forall j :: 0 <= j < i ==> rs[j].value.Some?
  }

  /** An object or array is read by the one exactly when it is reached by the other,
      and nothing else is reached. */
  ghost predicate SameRead<V>(rs: seq<Reading<V>>) {
    forall i :: 0 <= i < |rs| ==> (Reached(rs, i) <==> rs[i].composite && rs[i].value.Some?)
  }

  /** No string or scalar is read as some object or array is. */
  ghost predicate Apart<V>(rs: seq<Reading<V>>) {
    forall i, j :: 0 <= i < |rs| && 0 <= j < |rs| && rs[i].composite && !rs[j].composite && rs[i].value.Some?
                   ==> rs[i].value != rs[j].value
  }

  /** The parser reads each stacked object's or array's strict text, or rejects it when malformed. */
  ghost predicate Parses<V>(parse: string -> Option<V>, value: Json -> Option<V>, l: Stack) {
    match l
    case Bottom(_) => true
    case Next(_, v, rest) => (Composite(v) ==> parse(Print(v, true)) == value(v)) && Parses(parse, value, rest)
  }

  /** Where each stacked value stands in s the decoder reads it and stops at its
      end, or fails when it is malformed; `at` is where the stack starts. */
  ghost predicate Decodes<V>(decode: Decoder<V>, value: Json -> Option<V>, s: string, at: nat, l: Stack)
    decreases l
  {
    match l
    case Bottom(_) => true
    case Next(g, v, rest) =>
      var from := at + |g|;
      var stop := from + |Print(v, true)|;
      && decode(s, from) == (match value(v) case None => None case Some(x) => Some((x, stop)))
      && Decodes(decode, value, s, stop, rest)
  }

  /** The whole text parses only when it is one well-formed value, and then as that value. */
  ghost predicate ParsesWhole<V>(parse: string -> Option<V>, value: Json -> Option<V>, l: Stack) {
    match TolerantParse(parse, PrintStack(l, false))
    case None => true
    case Some(whole) => |Readings(l, value)| == 1 && Readings(l, value)[0].value == Some(whole)
  }

  lemma {:induction false} GapIsSkipped(before: string, g: string, rest: string)
    requires IsGap(g) && (rest != [] ==> !IsGapChar(rest[0]))
    ensures SkipGap(before + (g + rest), |before|) == |before| + |g|
    decreases |g|
  {
    var s := before + (g + rest);
    if g == [] {
      assert rest != [] ==> s[|before|] == rest[0];
    } else {
      assert s == (before + [g[0]]) + (g[1..] + rest);
      GapIsSkipped(before + [g[0]], g[1..], rest);
    }
  }

  lemma ValueStarts(v: Json)
    requires v.Scalar? ==> HasStart(v.text)
    ensures HasStart(Print(v, true))
  {
    if Composite(v) {
      PrintsBracketed(v);
    }
  }

  lemma ValueStands(before: string, g: string, v: Json, r: string)
    requires IsGap(g) && (v.Scalar? ==> HasStart(v.text))
    ensures var s := before + (g + (Print(v, true) + r));
            && SkipGap(s, |before|) == |before| + |g|
            && |before| + |g| < |before| + |g| + |Print(v, true)| <= |s|
  {
    ValueStarts(v);
    GapIsSkipped(before, g, Print(v, true) + r);
  }

  lemma DecodedNext<V>(decode: Decoder<V>, s: string, at: nat, from: nat, stop: nat, reading: Option<V>)
    requires at <= |s| && SkipGap(s, at) == from < stop <= |s|
    requires decode(s, from) == (match reading case None => None case Some(x) => Some((x, stop)))
    ensures Decoded(decode, s, at) ==
            match reading case None => [] case Some(x) => [x] + Decoded(decode, s, stop)
  {
  }

  /** Decoding one value after another gives the well-formed values up to the first malformed one. */
  lemma {:induction false} StackIsDecoded<V>(
      decode: Decoder<V>, value: Json -> Option<V>, before: string, l: Stack, s: string)
    requires GoodStack(l) && s == before + PrintStack(l, true) && Decodes(decode, value, s, |before|, l)
    ensures Decoded(decode, s, |before|) == BeforeInvalid(Readings(l, value))
    decreases l
  {
    match l
    case Bottom(g) =>
      assert g + [] == g;
      GapIsSkipped(before, g, []);
    case Next(g, v, rest) =>
      var p, r := Print(v, true), PrintStack(rest, true);
      ValueStands(before, g, v, r);
      Regroup(before, g, p, r);
      assert |before + (g + p)| == |before| + |g| + |p|;
      DecodedNext(decode, s, |before|, |before| + |g|, |before| + |g| + |p|, value(v));
      if value(v).Some? {
        StackIsDecoded(decode, value, before + (g + p), rest, s);
      }
  }

  lemma {:induction false} StackParses<V>(
      parse: string -> Option<V>, value: Json -> Option<V>, l: Stack, texts: seq<string>)
    requires Parses(parse, value, l)
    ensures Parsed(parse, texts + Texts(l)) == Parsed(parse, texts) + AllValid(Readings(l, value))
    decreases l
  {
    match l
    case Bottom(_) =>
      assert texts + [] == texts;
    case Next(_, v, rest) =>
      var here := if Composite(v) then [Print(v, true)] else [];
      var read := if Composite(v) && value(v).Some? then [value(v).value] else [];
      ParsedNext(parse, value, v, texts);
      StackParses(parse, value, rest, texts + here);
      Regroup(texts, [], here, Texts(rest));
      Regroup(Parsed(parse, texts), [], read, AllValid(Readings(rest, value)));
      assert Readings(l, value)[1..] == Readings(rest, value);
  }

  lemma ParsedNext<V>(parse: string -> Option<V>, value: Json -> Option<V>, v: Json, texts: seq<string>)
    requires Composite(v) ==> parse(Print(v, true)) == value(v)
    ensures Parsed(parse, texts + if Composite(v) then [Print(v, true)] else [])
            == Parsed(parse, texts) + if Composite(v) && value(v).Some? then [value(v).value] else []
  {
    if Composite(v) {
      ParsedOneMore(parse, texts, Print(v, true));
    } else {
      assert texts + [] == texts;
    }
  }

  lemma ParsedOneMore<V>(parse: string -> Option<V>, texts: seq<string>, text: string)
    ensures Parsed(parse, texts + [text]) ==
            match parse(text) case None => Parsed(parse, texts) case Some(x) => Parsed(parse, texts) + [x]
  {
    assert (texts + [text])[..|texts|] == texts;
  }

  /** The pane reads every well-formed object and array of a stack: what it
      cannot parse it skips, and so it does other values. One value alone it reads whatever it is. */
  lemma PaneReads<V>(parse: string -> Option<V>, value: Json -> Option<V>, l: Stack)
    requires GoodStack(l) && Parses(parse, value, l) && ParsesWhole(parse, value, l)
    ensures Values(parse, PrintStack(l, false)) ==
            match TolerantParse(parse, PrintStack(l, false))
            case Some(whole) => [whole]
            case None => AllValid(Readings(l, value))
  {
    if TolerantParse(parse, PrintStack(l, false)).None? {
      StackIsSplit(l);
      StackParses(parse, value, l, []);
      assert [] + Texts(l) == Texts(l);
    }
  }

  /** The backend reads every value before the first malformed one: there it stops. */
  lemma BackendReads<V>(decode: Decoder<V>, value: Json -> Option<V>, l: Stack)
    requires GoodStack(l) && Decodes(decode, value, PrintStack(l, true), 0, l)
    ensures Decoded(decode, Repair(OUTSIDE, PrintStack(l, false)), 0) == BeforeInvalid(Readings(l, value))
  {
    StackRepairs(l);
    assert "" + PrintStack(l, true) == PrintStack(l, true);
    StackIsDecoded(decode, value, "", l, PrintStack(l, true));
  }

  lemma {:induction false} SameReadingsIff<V>(rs: seq<Reading<V>>)
    requires Apart(rs)
    ensures AllValid(rs) == BeforeInvalid(rs) <==> SameRead(rs)
  {
    if rs != [] {
      if rs[0].value.None? {
        NoValidLeft(rs[1..]);
        InvalidFirst(rs);
      } else if rs[0].composite {
        ApartRest(rs);
        SameReadingsIff(rs[1..]);
        ValidFirst(rs);
      } else {
        OtherFirst(rs);
      }
    }
  }

  lemma ApartRest<V>(rs: seq<Reading<V>>)
    requires Apart(rs) && rs != []
    ensures Apart(rs[1..])
  {
  }

  /** No object or array is well formed. */
  ghost predicate NoneValid<V>(rs: seq<Reading<V>>) {
    forall j :: 0 <= j < |rs| ==> !(rs[j].composite && rs[j].value.Some?)
  }

  lemma InvalidFirst<V>(rs: seq<Reading<V>>)
    requires rs != [] && rs[0].value.None?
    ensures SameRead(rs) <==> NoneValid(rs[1..])
  {
    assert forall i :: 0 <= i < |rs| ==> !Reached(rs, i);
    if SameRead(rs) {
      forall j | 0 <= j < |rs[1..]|
        ensures !(rs[1..][j].composite && rs[1..][j].value.Some?)
      {
        assert !Reached(rs, j + 1);
      }
    }
    if NoneValid(rs[1..]) {
      forall i | 0 < i < |rs|
        ensures !(rs[i].composite && rs[i].value.Some?)
      {
        assert rs[i] == rs[1..][i - 1];
      }
    }
  }

  lemma ReachedRest<V>(rs: seq<Reading<V>>, i: nat)
    requires rs != [] && rs[0].value.Some? && i < |rs| - 1
    ensures Reached(rs, i + 1) <==> Reached(rs[1..], i)
  {
    if Reached(rs[1..], i) {
      forall j | 0 <= j < i + 1
        ensures rs[j].value.Some?
      {
        assert j > 0 ==> rs[1..][j - 1].value.Some?;
      }
    }
  }

  lemma ValidFirst<V>(rs: seq<Reading<V>>)
    requires rs != [] && rs[0].value.Some? && rs[0].composite
    ensures SameRead(rs) <==> SameRead(rs[1..])
    ensures AllValid(rs) == BeforeInvalid(rs) <==> AllValid(rs[1..]) == BeforeInvalid(rs[1..])
  {
    var rest := rs[1..];
    forall i | 0 <= i < |rest|
      ensures Reached(rs, i + 1) <==> Reached(rest, i)
    {
      ReachedRest(rs, i);
    }
    assert Reached(rs, 0);
    if SameRead(rest) {
      forall i | 0 <= i < |rs|
        ensures Reached(rs, i) <==> rs[i].composite && rs[i].value.Some?
      {
        assert i > 0 ==> rs[i] == rest[i - 1] && (Reached(rs, i - 1 + 1) <==> Reached(rest, i - 1));
      }
    }
    if SameRead(rs) {
      forall i | 0 <= i < |rest|
        ensures Reached(rest, i) <==> rest[i].composite && rest[i].value.Some?
      {
        assert Reached(rs, i + 1) <==> rs[i + 1].composite && rs[i + 1].value.Some?;
      }
    }
    var v := [rs[0].value.value];
    assert (v + AllValid(rest))[1..] == AllValid(rest) && (v + BeforeInvalid(rest))[1..] == BeforeInvalid(rest);
  }

  /** What the pane reads first is some object's or array's value. */
  lemma {:induction false} FirstIsComposite<V>(rs: seq<Reading<V>>) returns (i: nat)
    requires AllValid(rs) != []
    ensures i < |rs| && rs[i].composite && rs[i].value == Some(AllValid(rs)[0])
  {
    if rs[0].composite && rs[0].value.Some? {
      i := 0;
    } else {
      i := FirstIsComposite(rs[1..]);
      i := i + 1;
    }
  }

  lemma OtherFirst<V>(rs: seq<Reading<V>>)
    requires Apart(rs) && rs != [] && rs[0].value.Some? && !rs[0].composite
    ensures !SameRead(rs) && AllValid(rs) != BeforeInvalid(rs)
  {
    assert Reached(rs, 0);
    if AllValid(rs) != [] {
      var i := FirstIsComposite(rs);
    }
  }

  lemma {:induction false} NoValidLeft<V>(rs: seq<Reading<V>>)
    ensures AllValid(rs) == [] <==> NoneValid(rs)
  {
    if rs != [] {
      NoValidLeft(rs[1..]);
      assert NoneValid(rs) <==> !(rs[0].composite && rs[0].value.Some?) && NoneValid(rs[1..]) by {
        assert forall j :: 0 < j < |rs| ==> rs[j] == rs[1..][j - 1];
      }
    }
  }

  /** Pane and backend, whose parsers read each stacked value alike, read the
      same list exactly when the text is one value, or the objects and arrays
      that are well formed are the values before the first malformed one. */
  lemma BothReadTheSameIff<V>(parse: string -> Option<V>, decode: Decoder<V>, value: Json -> Option<V>, l: Stack)
    requires GoodStack(l) && Parses(parse, value, l) && ParsesWhole(parse, value, l)
    requires Decodes(decode, value, PrintStack(l, true), 0, l) && Apart(Readings(l, value))
    ensures Values(parse, PrintStack(l, false)) == Decoded(decode, Repair(OUTSIDE, PrintStack(l, false)), 0)
            <==> TolerantParse(parse, PrintStack(l, false)).Some? || SameRead(Readings(l, value))
  {
    PaneReads(parse, value, l);
    BackendReads(decode, value, l);
    if TolerantParse(parse, PrintStack(l, false)).Some? {
      assert BeforeInvalid(Readings(l, value)[1..]) == [];
    } else {
      SameReadingsIff(Readings(l, value));
    }
  }

  lemma TwoStacked(a: Json, b: Json, strict: bool)
    ensures PrintStack(Next("", a, Next("\n", b, Bottom(""))), strict) == Print(a, strict) + ("\n" + Print(b, strict))
  {
    var last := Next("\n", b, Bottom(""));
    assert PrintStack(Bottom(""), strict) == "";
    assert Print(b, strict) + "" == Print(b, strict);
    assert PrintStack(last, strict) == "\n" + Print(b, strict);
    assert "" + (Print(a, strict) + PrintStack(last, strict)) == Print(a, strict) + PrintStack(last, strict);
  }

  lemma TwoRead<V>(a: Json, b: Json, value: Json -> Option<V>, x: V)
    requires value(a) == None && value(b) == Some(x) && Composite(b)
    ensures AllValid(Readings(Next("", a, Next("\n", b, Bottom(""))), value)) == [x]
  {
    var last := Next("\n", b, Bottom(""));
    assert Readings(Bottom(""), value) == [];
    assert Readings(last, value)[1..] == [];
    assert AllValid(Readings(last, value)) == [x];
    assert Readings(Next("", a, last), value)[1..] == Readings(last, value);
  }

  /** A malformed value before a well-formed one: the pane reads the second, the backend nothing. */
  lemma MalformedFirst<V>(
    parse: string -> Option<V>, decode: Decoder<V>, bad: Json, good: Json, x: V, loose: string, strict: string)
    requires Good(bad) && Composite(bad) && Good(good) && Composite(good)
    requires loose == Print(bad, false) + ("\n" + Print(good, false))
    requires strict == Print(bad, true) + ("\n" + Print(good, true))
    requires parse(Print(bad, true)) == None && parse(Print(good, true)) == Some(x)
    requires decode(strict, 0) == None && TolerantParse(parse, loose).None?
    ensures Values(parse, loose) == [x] && Decoded(decode, Repair(OUTSIDE, loose), 0) == []
  {
    var l := Next("", bad, Next("\n", good, Bottom("")));
    var value := (j: Json) => parse(Print(j, true));
    TwoStacked(bad, good, false);
    TwoStacked(bad, good, true);
    TwoRead(bad, good, value, x);
    PaneReads(parse, value, l);
    StackRepairs(l);
    PrintsBracketed(bad);
    DecodedNext(decode, strict, 0, 0, |strict|, None);
  }

  /** An array with one bare word, and an empty object. */
  const MALFORMED := Arr("", Item("", Scalar("oops"), "", NoItems))
  const EMPTY := Obj("", NoMembers)

  const BAD_TEXT := "[oops]"
  const GOOD_TEXT := "{}"

  /** "[oops]" then "{}": the pane reads the object, the backend nothing. */
  lemma MalformedParts<V>(parse: string -> Option<V>, decode: Decoder<V>, x: V, text: string)
    requires text == BAD_TEXT + ("\n" + GOOD_TEXT)
    requires parse(text) == None && parse(BAD_TEXT) == None && parse(GOOD_TEXT) == Some(x) && decode(text, 0) == None
    ensures Values(parse, text) == [x] && Decoded(decode, Repair(OUTSIDE, text), 0) == []
  {
    var bad, good := MalformedPair(text);
    MalformedFirst(parse, decode, bad, good, x, text, text);
  }

  lemma MalformedPair(text: string) returns (bad: Json, good: Json)
    requires text == BAD_TEXT + ("\n" + GOOD_TEXT)
    ensures Good(bad) && Composite(bad) && Good(good) && Composite(good)
    ensures Print(bad, true) == Print(bad, false) == BAD_TEXT
    ensures Print(good, true) == Print(good, false) == GOOD_TEXT
    ensures Repair(OUTSIDE, text) == text
  {
    bad, good := MALFORMED, EMPTY;
    MalformedPrints(true);
    MalformedPrints(false);
    MalformedRepairs(text);
  }

  lemma MalformedPrints(strict: bool)
    ensures Print(MALFORMED, strict) == BAD_TEXT && Print(EMPTY, strict) == GOOD_TEXT
  {
    assert PrintItems(NoItems, strict) == "" && PrintMembers(NoMembers, strict) == "";
    assert Print(Scalar("oops"), strict) == "oops";
    assert PrintItems(Item("", Scalar("oops"), "", NoItems), strict) == "oops" by {
      assert "" + ("oops" + ("" + ("" + ""))) == "oops";
    }
    assert ['['] + ("" + ("oops" + [']'])) == "[oops]";
    assert ['{'] + ("" + ("" + ['}'])) == "{}";
  }

  lemma MalformedRepairs(text: string)
    requires text == BAD_TEXT + ("\n" + GOOD_TEXT)
    ensures Repair(OUTSIDE, text) == text
  {
    MalformedPrints(true);
    MalformedPrints(false);
    TwoStacked(MALFORMED, EMPTY, true);
    TwoStacked(MALFORMED, EMPTY, false);
    StackRepairs(Next("", MALFORMED, Next("\n", EMPTY, Bottom(""))));
  }

  /** A word between two empty objects. */
  const WORDS := Scalar("oops")
  const WORD_BETWEEN := Next("", EMPTY, Next("\n", WORDS, Next("\n", EMPTY, Bottom(""))))
  const WORD_TEXT := "{}\noops\n{}"

  /** "{}", "oops", "{}" on three lines: the pane reads both objects, the backend only the first. */
  lemma WordBetween<V>(parse: string -> Option<V>, decode: Decoder<V>, x: V, text: string)
    requires text == WORD_TEXT && parse(text) == None && parse(GOOD_TEXT) == Some(x)
    requires decode(text, 0) == Some((x, 2)) && decode(text, 3) == None && decode(text, 8) == Some((x, 10))
    ensures Values(parse, text) == [x, x] && Decoded(decode, Repair(OUTSIDE, text), 0) == [x]
  {
    var l, value := WORD_BETWEEN, (j: Json) => if j == EMPTY then Some(x) else None;
    WordIsGood(text);
    WordIsRead(value, x);
    MalformedPrints(true);
    WordParses(parse, value, x);
    WordDecodes(decode, value, x, text);
    PaneReads(parse, value, l);
    BackendReads(decode, value, l);
  }

  lemma WordIsGood(text: string)
    requires text == WORD_TEXT
    ensures GoodStack(WORD_BETWEEN)
    ensures PrintStack(WORD_BETWEEN, true) == text && PrintStack(WORD_BETWEEN, false) == text
    ensures Repair(OUTSIDE, text) == text
  {
    WordPrints(true, text);
    WordPrints(false, text);
    StackRepairs(WORD_BETWEEN);
  }

  lemma WordPrints(strict: bool, text: string)
    requires text == WORD_TEXT
    ensures PrintStack(WORD_BETWEEN, strict) == text
  {
    MalformedPrints(strict);
    TwoStacked(WORDS, EMPTY, strict);
    var last := Next("\n", EMPTY, Bottom(""));
    assert PrintStack(last, strict) == "\n{}" by {
      assert PrintStack(Bottom(""), strict) == "";
      assert "\n" + (GOOD_TEXT + "") == "\n{}";
    }
    assert "\n" + ("oops" + "\n{}") == "\noops\n{}";
    assert "" + (GOOD_TEXT + "\noops\n{}") == text;
  }

  lemma WordIsRead<V>(value: Json -> Option<V>, x: V)
    requires value(EMPTY) == Some(x) && value(WORDS) == None
    ensures var rs := Readings(WORD_BETWEEN, value);
            AllValid(rs) == [x, x] && BeforeInvalid(rs) == [x]
  {
    var last := Next("\n", EMPTY, Bottom(""));
    TwoRead(WORDS, EMPTY, value, x);
    assert Readings(last, value)[1..] == [];
    var rest := Next("\n", WORDS, last);
    assert AllValid(Readings(rest, value)) == [x] by {
      assert Readings(rest, value)[1..] == Readings(last, value);
    }
    assert Readings(WORD_BETWEEN, value)[1..] == Readings(rest, value);
  }

  lemma WordParses<V>(parse: string -> Option<V>, value: Json -> Option<V>, x: V)
    requires parse(GOOD_TEXT) == Some(x) && value(EMPTY) == Some(x) && Print(EMPTY, true) == GOOD_TEXT
    ensures Parses(parse, value, WORD_BETWEEN)
  {
  }

  lemma WordDecodes<V>(decode: Decoder<V>, value: Json -> Option<V>, x: V, s: string)
    requires value(EMPTY) == Some(x) && value(WORDS) == None && Print(EMPTY, true) == GOOD_TEXT
    requires decode(s, 0) == Some((x, 2)) && decode(s, 3) == None && decode(s, 8) == Some((x, 10))
    ensures Decodes(decode, value, s, 0, WORD_BETWEEN)
  {
    assert |GOOD_TEXT| == 2 && |Print(WORDS, true)| == 4;
  }
}
