// JavaScript strings as the add-in sees them: sequences of 16-bit code units,
// with the whitespace class, the line breaks and the normalisation the Word
// searches rely on (normalize.ts and the head of trackedText.ts).

module Utf16 {
  type Unit = c: int | 0 <= c < 0x1_0000
  type Text = seq<Unit>

  const LF: Unit := 10
  const SPACE: Unit := 32

  /** "\r\n\v\f" */
  predicate IsBreak(c: Unit) {
    10 <= c <= 13
  }

  /** The class \s of ECMAScript. */
  predicate IsSpace(c: Unit) {
    || 9 <= c <= 13 || c == 32 || c == 0xA0 || c == 0x1680 || 0x2000 <= c <= 0x200A
    || c == 0x2028 || c == 0x2029 || c == 0x202F || c == 0x205F || c == 0x3000 || c == 0xFEFF
  }

  /** What the model leaves to the Unicode tables: the lower-case form of one
      unit (the unit itself when that form is longer), the word class
      [\p{L}\p{N}_], and NFC. */
  datatype Unicode = Unicode(lower: Unit -> Unit, wordUnit: Unit -> bool, nfc: Text -> Text) {
    /** Lower-casing never turns a visible character into white space, and leaves straight quotes alone. */
    ghost predicate Sane() {
      (forall c: Unit :: !IsSpace(c) ==> !IsSpace(lower(c))) && lower(39) == 39 && lower(34) == 34
    }
  }

  function WithoutBreaks(s: Text): Text {
    if s == [] then []
    else if IsBreak(s[0]) then WithoutBreaks(s[1..])
    else [s[0]] + WithoutBreaks(s[1..])
  }

  /** a is b with stretches taken out. */
  predicate Subsequence<T(==)>(a: seq<T>, b: seq<T>)
    decreases b
  {
    if a == [] then true
    else if b == [] then false
    else if a[0] == b[0] then Subsequence(a[1..], b[1..])
    else Subsequence(a, b[1..])
  }

  // ----- normalizeForSearch

  function Straighten(c: Unit): Unit {
    if c == 0x2018 || c == 0x2019 then 39
    else if c == 0x201C || c == 0x201D then 34
    else if c == 0xA0 then SPACE
    else c
  }

  function StraightenAll(s: Text): (r: Text)
    ensures |r| == |s| && forall i :: 0 <= i < |s| ==> r[i] == Straighten(s[i])
  {
    seq(|s|, i requires 0 <= i < |s| => Straighten(s[i]))
  }

  function CollapseSpaces(s: Text): Text {
    if s == [] then []
    else
      var p := CollapseSpaces(s[..|s| - 1]);
      var c := s[|s| - 1];
      if !IsSpace(c) then p + [c]
      else if p != [] && p[|p| - 1] == SPACE then p
      else p + [SPACE]
  }

  function Trim(s: Text): (r: Text)
    ensures r != [] ==> !IsSpace(r[0]) && !IsSpace(r[|r| - 1])
  {
    if s == [] then []
    else if IsSpace(s[0]) then Trim(s[1..])
    else if IsSpace(s[|s| - 1]) then Trim(s[..|s| - 1])
    else s
  }

  function NormalizeForSearch(u: Unicode, s: Text): (r: Text)
    ensures r != [] ==> !IsSpace(r[0]) && !IsSpace(r[|r| - 1])
  {
    Trim(CollapseSpaces(StraightenAll(u.nfc(s))))
  }
}
