// The repair of raw white space inside strings keeps what the strings say: read
// as strict JSON (section 7 of RFC 8259) the repaired text denotes the very
// characters the model wrote, raw line breaks and tabs among them.

module JsonMeaning {
  import opened Wrappers
  import opened JsonText

  /** What a backslash and a letter denote. */
  function Unescaped(ch: char): Option<int> {
    match ch
    case '"' => Some(0x22)
    case '\\' => Some(0x5C)
    case '/' => Some(0x2F)
    case 'b' => Some(0x08)
    case 'f' => Some(0x0C)
    case 'n' => Some(0x0A)
    case 'r' => Some(0x0D)
    case 't' => Some(0x09)
    case _ => None
  }

  function HexDigit(ch: char): Option<int> {
    if '0' <= ch <= '9' then Some(ch as int - '0' as int)
    else if 'a' <= ch <= 'f' then Some(ch as int - 'a' as int + 10)
    else if 'A' <= ch <= 'F' then Some(ch as int - 'A' as int + 10)
    else None
  }

  /** What the first n characters denote as hexadecimal digits, added to `value`. */
  function Hex(s: string, n: nat, value: int): (r: Option<int>)
    ensures r.Some? ==> n <= |s|
  {
    if n == 0 then Some(value)
    else if s == [] then None
    else
      match HexDigit(s[0])
      case None => None
      case Some(d) => Hex(s[1..], n - 1, 16 * value + d)
  }

  function Ahead(first: Option<int>, rest: Option<seq<int>>): Option<seq<int>> {
    if first.Some? && rest.Some? then Some([first.value] + rest.value) else None
  }

  /** The code points a string's inside denotes; none when it is no JSON string.
      Leniently, a line break or tab may stand there raw and denotes itself. */
  function Denoted(s: string, lenient: bool): Option<seq<int>>
    decreases |s|
  {
    if s == [] then Some([])
    else if s[0] == '\\' then
      if |s| == 1 then None
      else if s[1] == 'u' then
        if Hex(s[2..], 4, 0).None? then None else Ahead(Hex(s[2..], 4, 0), Denoted(s[6..], lenient))
      else Ahead(Unescaped(s[1]), Denoted(s[2..], lenient))
    else if s[0] == '"' || (s[0] < ' ' && !(lenient && s[0] in "\n\r\t")) then None
    else Ahead(Some(s[0] as int), Denoted(s[1..], lenient))
  }

  lemma {:induction false} HexStays(s: string, n: nat, value: int)
    ensures Hex(Repair(INSIDE, s), n, value) == Hex(s, n, value)
    ensures Hex(s, n, value).Some? ==> Repair(INSIDE, s) == s[..n] + Repair(INSIDE, s[n..])
  {
    if n > 0 && s != [] && HexDigit(s[0]).Some? {
      HexStays(s[1..], n - 1, 16 * value + HexDigit(s[0]).value);
      assert Repair(INSIDE, s)[1..] == Repair(INSIDE, s[1..]);
      if Hex(s, n, value).Some? {
        assert s[1..][n - 1..] == s[n..] && [s[0]] + s[1..][..n - 1] == s[..n];
      }
    } else if n > 0 && s != [] {
      assert Repair(INSIDE, s)[0] == s[0] || Repair(INSIDE, s)[0] == '\\';
    }
  }

  const ESCAPED := Mode(true, true)

  lemma BackslashStays(s: string)
    requires s != [] && s[0] == '\\'
    ensures Repair(INSIDE, s) == [s[0]] + Repair(ESCAPED, s[1..])
  {
  }

  lemma NextStays(s: string)
    requires s != []
    ensures Repair(ESCAPED, s) == [s[0]] + Repair(INSIDE, s[1..])
  {
  }

  /** A backslash and the character behind it stay as they are. */
  lemma EscapeStays(s: string)
    requires |s| >= 2 && s[0] == '\\'
    ensures Repair(INSIDE, s) == [s[0], s[1]] + Repair(INSIDE, s[2..])
  {
    BackslashStays(s);
    NextStays(s[1..]);
    assert s[1..][1..] == s[2..];
  }

  lemma RawIsEscaped(s: string)
    requires s != [] && IsRaw(s[0])
    ensures |Repair(INSIDE, s)| >= 2 && Repair(INSIDE, s)[0] == '\\' && Repair(INSIDE, s)[1] != 'u'
    ensures Unescaped(Repair(INSIDE, s)[1]) == Some(s[0] as int)
    ensures Repair(INSIDE, s)[2..] == Repair(INSIDE, s[1..])
  {
  }

  /** Whatever stands between two quotes: the repaired text means, strictly read,
      what the text as written means with its line breaks and tabs taken as themselves. */
  lemma {:induction false} RepairKeepsMeaning(s: string)
    ensures Denoted(Repair(INSIDE, s), false) == Denoted(s, true)
    decreases |s|
  {
    if s == [] {
    } else if s[0] == '\\' {
      if |s| >= 2 {
        EscapedKeepsMeaning(s);
      }
    } else if IsRaw(s[0]) {
      RawIsEscaped(s);
      RepairKeepsMeaning(s[1..]);
    } else if s[0] == '"' {
      assert Repair(INSIDE, s)[0] == '"';
    } else {
      RepairKeepsMeaning(s[1..]);
      assert Repair(INSIDE, s) == [s[0]] + Repair(INSIDE, s[1..]);
    }
  }

  lemma {:induction false} EscapedKeepsMeaning(s: string)
    requires |s| >= 2 && s[0] == '\\'
    ensures Denoted(Repair(INSIDE, s), false) == Denoted(s, true)
    decreases |s|, 0
  {
    var t := Repair(INSIDE, s);
    EscapeStays(s);
    assert t[0] == s[0] && t[1] == s[1] && t[2..] == Repair(INSIDE, s[2..]);
    if s[1] == 'u' {
      HexStays(s[2..], 4, 0);
      if Hex(s[2..], 4, 0).Some? {
        assert s[2..][4..] == s[6..];
        assert t[6..] == Repair(INSIDE, s[6..]);
        RepairKeepsMeaning(s[6..]);
      }
    } else {
      RepairKeepsMeaning(s[2..]);
    }
  }

  /** So a string of the model's, repaired, means what the model wrote. */
  lemma StringMeans(ps: seq<Piece>)
    requires GoodPieces(ps)
    ensures Denoted(PrintPieces(ps, true), false) == Denoted(PrintPieces(ps, false), true)
  {
    PiecesRepair(ps);
    RepairKeepsMeaning(PrintPieces(ps, false));
  }

  /** Outside strings nothing changes. */
  lemma {:induction false} OutsideStays(s: string)
    requires '"' !in s
    ensures Repair(OUTSIDE, s) == s && ModeAfter(OUTSIDE, s) == OUTSIDE
    decreases |s|
  {
    if s != [] {
      assert s[0] in s && '"' !in s[1..];
      OutsideStays(s[1..]);
    }
  }
}
