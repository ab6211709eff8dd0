// What one paragraph does to the headings and the buffer, kind by kind, and where
// an oversized text is cut into sentences.

module ChunkLaws {
  import opened Wrappers
  import opened Strings
  import opened VisibleText
  import opened Collections
  import opened Chunker
  import opened ChunkUnits

  // ----- Numbers and names

  /** A number without the dots it ends with. */
  ghost predicate IsStripped(s: string, t: string) {
    && t <= s && (forall k :: |t| <= k < |s| ==> s[k] == '.') && (t != "" ==> t[|t| - 1] != '.')
  }

  lemma {:induction false} StripIs(s: string)
    ensures IsStripped(s, StripDots(s))
  {
    if s != [] && s[|s| - 1] == '.' {
      StripIs(s[..|s| - 1]);
    }
  }

  /** A number has one part exactly when it holds no dot. */
  lemma {:induction false} OnePartIff(s: string)
    ensures Depth(s) >= 1
    ensures Depth(s) == 1 <==> '.' !in s
  {
    if s != [] {
      OnePartIff(s[1..]);
      assert s == [s[0]] + s[1..];
    }
  }

  lemma WordEnds(isSpace: char -> bool, s: string, ch: char)
    ensures WordCount(isSpace, s + [ch]) ==
            WordCount(isSpace, s) + if !isSpace(ch) && (s == [] || isSpace(s[|s| - 1])) then 1 else 0
  {
    if s == [] {
      assert [] + [ch] == [ch] && [ch][1..] == [];
    } else {
      assert (s + [ch])[1..] == s[1..] + [ch];
      WordEnds(isSpace, s[1..], ch);
    }
  }

  lemma {:induction false} CountIsWords(isSpace: char -> bool, s: string)
    ensures WordCount(isSpace, s) == |Words(isSpace, s)|
  {
    if s != [] {
      var n := |s| - 1;
      CountIsWords(isSpace, s[..n]);
      assert s == s[..n] + [s[n]];
      WordEnds(isSpace, s[..n], s[n]);
    }
  }

  /** The text before the first `stop`, all of it when there is none. */
  ghost predicate IsBefore(s: string, stop: char, t: string) {
    t <= s && stop !in t && (|t| < |s| ==> s[|t|] == stop)
  }

  lemma {:induction false} BeforeIs(s: string, stop: char)
    ensures IsBefore(s, stop, Before(s, stop))
  {
    if s != [] && s[0] != stop {
      BeforeIs(s[1..], stop);
      assert s == [s[0]] + s[1..];
    }
  }

  /** A section is named by its paragraph, when that has at most eight words or
      no colon, comma or full stop; else by what stands before the first colon,
      or comma when there is no colon, or full stop when there is neither. */
  lemma ShortNameIs(t: Tools, raw: string) returns (before: string)
    ensures |Words(t.isSpace, raw)| <= 8 || (':' !in raw && ',' !in raw && '.' !in raw) ==> ShortName(t, raw) == raw
    ensures |Words(t.isSpace, raw)| > 8 && (':' in raw || ',' in raw || '.' in raw) ==>
              && IsBefore(raw, if ':' in raw then ':' else if ',' in raw then ',' else '.', before)
              && ShortName(t, raw) == Trim(t.isSpace, before)
  {
    CountIsWords(t.isSpace, raw);
    var stop := if ':' in raw then ':' else if ',' in raw then ',' else '.';
    before := Before(raw, stop);
    BeforeIs(raw, stop);
  }

  // ----- Paragraphs, kind by kind

  /** Nothing happens at a blank paragraph. */
  lemma BlankIsSkipped(t: Tools, h: Headings, p: Paragraph)
    requires Trim(t.isSpace, p.text) == ""
    ensures NextHeadings(t, h, p) == h && BufferedText(t, p) == None && !EndsUnit(t, p)
  {
  }

  /** A decimal number of one part opens a section, named by the bold run or else
      the paragraph, without a clause, and is not buffered. */
  lemma TopNumberOpensSection(t: Tools, h: Headings, p: Paragraph, resolved: string, number: string)
    requires Trim(t.isSpace, p.text) != "" && p.number == Some(Number(true, resolved))
    requires IsStripped(resolved, number) && '.' !in number
    ensures var name := if p.boldName != "" then p.boldName else ShortName(t, Trim(t.isSpace, p.text));
            NextHeadings(t, h, p) == Headings(name, number, "", "")
    ensures BufferedText(t, p) == None && EndsUnit(t, p)
  {
    StrippedIsOne(resolved, number);
    OnePartIff(number);
  }

  lemma StrippedIsOne(s: string, t: string)
    requires IsStripped(s, t)
    ensures StripDots(s) == t
  {
    StripIs(s);
    var u := StripDots(s);
    assert t != "" ==> s[|t| - 1] == t[|t| - 1];
    assert u != "" ==> s[|u| - 1] == u[|u| - 1];
  }

  /** One of several parts begins a clause of the section, named by the bold run or
      else the whole paragraph, which is buffered behind its number. */
  lemma DeeperNumberBeginsClause(t: Tools, h: Headings, p: Paragraph, resolved: string, number: string)
    requires Trim(t.isSpace, p.text) != "" && p.number == Some(Number(true, resolved))
    requires IsStripped(resolved, number) && '.' in number
    ensures var text := Trim(t.isSpace, p.text);
            && NextHeadings(t, h, p) ==
                 Headings(h.section, h.sectionNumber, if p.boldName != "" then p.boldName else text, number)
            && BufferedText(t, p) == Some(resolved + " " + text) && EndsUnit(t, p)
  {
    StrippedIsOne(resolved, number);
    OnePartIff(number);
  }

  /** The paragraph has a text and no decimal number. */
  predicate Unnumbered(t: Tools, p: Paragraph) {
    Trim(t.isSpace, p.text) != "" && (p.number.Some? ==> !p.number.value.decimal)
  }

  /** Of headings, level 1 opens a section and level 2 a clause; a deeper one
      changes nothing, and none is buffered. */
  lemma HeadingIs(t: Tools, h: Headings, p: Paragraph, level: nat)
    requires Unnumbered(t, p) && p.level == Some(level) && level > 0
    ensures NextHeadings(t, h, p) ==
            if level == 1 then Headings(Trim(t.isSpace, p.text), "", "", "")
            else if level == 2 then Headings(h.section, h.sectionNumber, Trim(t.isSpace, p.text), "")
            else h
    ensures BufferedText(t, p) == None && EndsUnit(t, p)
  {
  }

  /** A bold heading opens a section as level 1 does. */
  lemma BoldHeadingIs(t: Tools, h: Headings, p: Paragraph)
    requires Unnumbered(t, p) && (p.level == None || p.level == Some(0)) && p.boldHeading
    ensures NextHeadings(t, h, p) == Headings(Trim(t.isSpace, p.text), "", "", "")
    ensures BufferedText(t, p) == None && EndsUnit(t, p)
  {
  }

  /** Body text is buffered; a clause number at its start takes the place of the
      one before, and a label of a list paragraph, where no number is current, that of the clause. */
  lemma BodyIs(t: Tools, h: Headings, p: Paragraph)
    requires Unnumbered(t, p) && (p.level == None || p.level == Some(0)) && !p.boldHeading
    ensures var text := Trim(t.isSpace, p.text);
            && BufferedText(t, p) == Some(text) && !EndsUnit(t, p)
            && NextHeadings(t, h, p) ==
                 if t.clauseNumberOf(text) != ""
                 then Headings(h.section, h.sectionNumber, h.clause, t.clauseNumberOf(text))
                 else if t.labelOf(text) != "" && p.listParagraph && h.clauseNumber == ""
                 then Headings(h.section, h.sectionNumber, t.labelOf(text), "")
                 else h
  {
  }

  // ----- Sentences

  predicate IsEnd(ch: char) {
    ch == '.' || ch == '!' || ch == '?'
  }

  /** No white space in s stands right behind an end mark; `after` tells whether one stands before s. */
  predicate Uncut(isSpace: char -> bool, s: string, after: bool) {
    && (after && s != [] ==> !isSpace(s[0]))
    && forall k :: 0 < k < |s| && IsEnd(s[k - 1]) ==> !isSpace(s[k])
  }

  /** s is the sentences with gaps of white space between: behind an end mark, as long as
      they go, and nowhere else. `after` tells whether an end mark stands before s. */
  ghost predicate CutAtEnds(isSpace: char -> bool, s: string, after: bool, ss: seq<string>, gaps: seq<string>)
    decreases |ss|
  {
    && |ss| == |gaps| + 1 && ss[0] <= s && Uncut(isSpace, ss[0], after)
    && var rest := s[|ss[0]|..];
       if gaps == [] then rest == ""
       else
         && (if ss[0] == "" then after else IsEnd(ss[0][|ss[0]| - 1]))
         && gaps[0] != "" && gaps[0] <= rest && (forall k :: 0 <= k < |gaps[0]| ==> isSpace(rest[k]))
         && (|gaps[0]| < |rest| ==> !isSpace(rest[|gaps[0]|]))
         && CutAtEnds(isSpace, rest[|gaps[0]|..], false, ss[1..], gaps[1..])
  }

  lemma {:induction false} SentencesAre(isSpace: char -> bool, s: string, after: bool) returns (gaps: seq<string>)
    requires forall ch :: IsEnd(ch) ==> !isSpace(ch)
    ensures CutAtEnds(isSpace, s, after, Sentences(isSpace, s, after), gaps)
    decreases |s|
  {
    if s == [] {
      gaps := [];
    } else if after && isSpace(s[0]) {
      var n := RunLength(isSpace, s);
      gaps := SentencesAre(isSpace, s[n..], false);
      GapFirst(isSpace, s, n, Sentences(isSpace, s[n..], false), gaps);
      gaps := [s[..n]] + gaps;
    } else {
      gaps := SentencesAre(isSpace, s[1..], s[0] in ".!?");
      CharFirst(isSpace, s, after, Sentences(isSpace, s[1..], s[0] in ".!?"), gaps);
    }
  }

  lemma GapFirst(isSpace: char -> bool, s: string, n: nat, ss: seq<string>, gaps: seq<string>)
    requires n == RunLength(isSpace, s) > 0 && CutAtEnds(isSpace, s[n..], false, ss, gaps)
    ensures CutAtEnds(isSpace, s, true, [""] + ss, [s[..n]] + gaps)
  {
    assert ([""] + ss)[1..] == ss && ([s[..n]] + gaps)[1..] == gaps;
    assert s[0..] == s;
  }

  lemma CharFirst(isSpace: char -> bool, s: string, after: bool, ss: seq<string>, gaps: seq<string>)
    requires s != [] && !(after && isSpace(s[0])) && CutAtEnds(isSpace, s[1..], IsEnd(s[0]), ss, gaps)
    ensures CutAtEnds(isSpace, s, after, [[s[0]] + ss[0]] + ss[1..], gaps)
  {
    var first := [s[0]] + ss[0];
    assert ([first] + ss[1..])[1..] == ss[1..];
    assert s[1..][|ss[0]|..] == s[|first|..];
    forall k | 0 < k < |first| && IsEnd(first[k - 1])
      ensures !isSpace(first[k])
    {
      assert first[k] == ss[0][k - 1];
    }
  }

  // ----- Sizes

  /** A buffer is held back when what it holds, trimmed, is shorter than the
      least number of tokens, at four characters each. */
  lemma SmallIff(t: Tools, buffer: seq<string>)
    ensures Small(t, buffer) <==>
            var text := Trim(t.isSpace, JoinLines(buffer));
            text == "" || |text| < 4 * t.minTokens
  {
  }

  /** A text stays whole while it is within the limit, at four characters a token, rounded down. */
  lemma WholeWithinLimit(isSpace: char -> bool, text: string, max: nat)
    requires |text| < 4 * (max + 1)
    ensures Split(isSpace, text, max) == [text]
  {
  }

  /** Which buffers hold any text. */
  function Holding(t: Tools, buffers: seq<Held>): (flags: seq<bool>)
    ensures |flags| == |buffers|
    ensures forall i :: 0 <= i < |buffers| ==> flags[i] == (Trim(t.isSpace, JoinLines(buffers[i].texts)) != "")
  {
    seq(|buffers|, i requires 0 <= i < |buffers| => Trim(t.isSpace, JoinLines(buffers[i].texts)) != "")
  }

  ghost predicate TextsAt(t: Tools, buffers: seq<Held>, at: seq<nat>, texts: seq<string>) {
    |texts| == |at| && forall i :: 0 <= i < |at| ==>
      at[i] < |buffers| && texts[i] == Trim(t.isSpace, JoinLines(buffers[at[i]].texts))
  }

  lemma {:induction false} VisibleAre(t: Tools, buffers: seq<Held>)
    ensures TextsAt(t, buffers, Where(Holding(t, buffers)), Visible(t, buffers))
  {
    if buffers != [] {
      var n := |buffers| - 1;
      VisibleAre(t, buffers[..n]);
      assert Holding(t, buffers)[..n] == Holding(t, buffers[..n]);
    }
  }

  /** A unit's text is that of its buffers that hold any, line by line. */
  lemma UnitTextIs(t: Tools, u: Unit) returns (texts: seq<string>)
    ensures TextsAt(t, u.buffers, Where(Holding(t, u.buffers)), texts)
    ensures UnitText(t, u) == Trim(t.isSpace, JoinLines(texts))
  {
    texts := Visible(t, u.buffers);
    VisibleAre(t, u.buffers);
  }
}
