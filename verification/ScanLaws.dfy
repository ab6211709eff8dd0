// What reading stacked edit blocks tries and skips, and in which order.

module ScanLaws {
  import opened Wrappers
  import opened JsonText
  import opened JsonScan

  /** The text is read whole when it parses as it is, or else repaired; only then
      are its parts read, those that parse. */
  lemma ValuesAre<V>(parse: string -> Option<V>, raw: string)
    ensures var repaired := Repair(OUTSIDE, raw);
            Values(parse, raw) ==
            if parse(raw).Some? then [parse(raw).value]
            else if parse(repaired).Some? then [parse(repaired).value]
            else Parsed(parse, Pieces(repaired))
  {
  }

  /** Between values blanks, line breaks, tabs and commas are skipped, and nothing else. */
  lemma {:induction false} GapIs(s: string, i: nat)
    requires i <= |s|
    ensures var k := SkipGap(s, i);
            && (forall j :: i <= j < k ==> s[j] in {' ', '\t', '\r', '\n', ','})
            && (k < |s| ==> s[k] !in {' ', '\t', '\r', '\n', ','})
    decreases |s| - i
  {
    if i < |s| {
      GapIs(s, i + 1);
    }
  }

  /** The scanner goes in at an opening brace or bracket and out at a closing one,
      outside strings; strings go from quote to quote but for escaped ones. */
  lemma AdvanceIs(st: Scan, ch: char)
    ensures var next := Advance(st, ch);
            && next.pos == st.pos + 1
            && next.inString == (if !st.escapeNext && ch == '"' then !st.inString else st.inString)
            && next.escapeNext == (!st.escapeNext && st.inString && ch == '\\')
            && next.depth == (if st.escapeNext || st.inString then st.depth
                              else if ch in {'{', '['} then st.depth + 1
                              else if ch in {'}', ']'} && st.depth > 0 then st.depth - 1
                              else st.depth)
  {
  }
}
