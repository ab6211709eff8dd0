// Which lines are quote lines: exactly those of the expression's form, told from
// their pieces.

module LineForm {
  import opened Wrappers
  import opened Strings
  import opened SentenceGate
  import opened QuoteLines

  /** White space, and no decimal digit is white space. */
  ghost predicate Blank(c: Chars, s: string) {
    forall k :: 0 <= k < |s| ==> c.isSpace(s[k])
  }

  ghost predicate Digits(c: Chars, s: string) {
    s != "" && forall k :: 0 <= k < |s| ==> c.isDecimal(s[k])
  }

  ghost predicate Apart(c: Chars) {
    forall ch :: c.isDecimal(ch) ==> !c.isSpace(ch)
  }

  /** The optional ", said earlier", white space where it may be. */
  ghost predicate IsSaid(c: Chars, s: string, a: string, b: string) {
    s == "" || (Blank(c, a) && Blank(c, b) && b != "" && s == "," + (a + ("said" + (b + "earlier"))))
  }

  lemma SkipBlank(c: Chars, a: string, rest: string)
    requires Blank(c, a) && rest != "" && !c.isSpace(rest[0])
    ensures SkipSpaces(c, a + rest) == rest && RunLength(c.isSpace, a + rest) == |a|
  {
    RunThen(c.isSpace, a, rest);
  }

  lemma SaidIsSkipped(c: Chars, s: string, a: string, b: string, tail: string)
    requires c.Sane() && IsSaid(c, s, a, b) && tail != "" && tail[0] == ']'
    ensures SkipSaidEarlier(c, s + tail) == tail
  {
    if s == "" {
      assert s + tail == tail;
    } else {
      var e := "earlier" + tail;
      var d := "said" + (b + e);
      SaidRegroups(a, b, tail, s);
      AfterOwnPrefix(",", a + d);
      assert d[0] == 's' && e[0] == 'e';
      SkipBlank(c, a, d);
      AfterOwnPrefix("said", b + e);
      SkipBlank(c, b, e);
      AfterOwnPrefix("earlier", tail);
    }
  }

  lemma SaidRegroups(a: string, b: string, tail: string, s: string)
    requires s == "," + (a + ("said" + (b + "earlier")))
    ensures s + tail == "," + (a + ("said" + (b + ("earlier" + tail))))
  {
    Regroup(b, "earlier", tail);
    Regroup("said", b + "earlier", tail);
    Regroup(a, "said" + (b + "earlier"), tail);
    Regroup(",", a + ("said" + (b + "earlier")), tail);
  }

  lemma Regroup(a: string, b: string, c: string)
    ensures a + b + c == a + (b + c)
  {
  }

  function Who(sp: Speaker): string {
    match sp
    case AttorneySaid => "attorney"
    case AssistantSaid => "assistant"
  }

  /** A line's pieces: the row's digits, white space, who said it, perhaps that
      it was said earlier, white space, and a text that does not begin with any. */
  datatype Form = Form(digits: string, gap: string, who: Speaker, said: string, a: string, b: string, gap': string,
    text: string)

  ghost predicate IsForm(c: Chars, f: Form) {
    && Digits(c, f.digits) && Blank(c, f.gap) && f.gap != "" && IsSaid(c, f.said, f.a, f.b)
    && Blank(c, f.gap') && f.text != "" && !c.isSpace(f.text[0])
  }

  function LineOf(f: Form): string {
    "[#" + (f.digits + (f.gap + (Who(f.who) + (f.said + ("]" + (f.gap' + f.text))))))
  }

  lemma TextIsRead(c: Chars, f: Form)
    requires c.Sane() && IsForm(c, f)
    ensures ParseText(c, f.said + ("]" + (f.gap' + f.text))) == Some(Peel(c, f.text))
  {
    var tail := "]" + (f.gap' + f.text);
    assert tail[0] == ']';
    SaidIsSkipped(c, f.said, f.a, f.b, tail);
    AfterOwnPrefix("]", f.gap' + f.text);
    SkipBlank(c, f.gap', f.text);
  }

  lemma WhoIsRead(c: Chars, who: Speaker, rest: string)
    ensures ParseSpeaker(c, Who(who) + rest) ==
            match ParseText(c, rest)
            case None => None
            case Some(t) => Some((who, t))
  {
    match who
    case AttorneySaid => AfterOwnPrefix("attorney", rest);
    case AssistantSaid =>
      AfterOwnPrefix("assistant", rest);
      assert ("assistant" + rest)[1] == 's' && "attorney"[1] == 't';
  }

  lemma SpeakerIsRead(c: Chars, f: Form)
    requires c.Sane() && IsForm(c, f)
    ensures ParseSpeaker(c, Who(f.who) + (f.said + ("]" + (f.gap' + f.text)))) == Some((f.who, Peel(c, f.text)))
  {
    TextIsRead(c, f);
    WhoIsRead(c, f.who, f.said + ("]" + (f.gap' + f.text)));
  }

  /** Every line of the form is read as it says, its text peeled. */
  lemma FormIsRead(c: Chars, f: Form)
    requires c.Sane() && Apart(c) && IsForm(c, f)
    ensures ParseLine(c, LineOf(f)) == Some(Quote(ToNat(c, f.digits), f.who, Peel(c, f.text)))
  {
    var rest := Who(f.who) + (f.said + ("]" + (f.gap' + f.text)));
    assert rest[0] == 'a';
    SpeakerIsRead(c, f);
    DigitsAreRead(c, f.digits, f.gap, rest);
  }

  lemma DigitsAreRead(c: Chars, digits: string, gap: string, rest: string)
    requires c.Sane() && Apart(c) && Digits(c, digits) && Blank(c, gap) && gap != "" && rest != "" && rest[0] == 'a'
    ensures ParseLine(c, "[#" + (digits + (gap + rest))) ==
            match ParseSpeaker(c, rest)
            case None => None
            case Some(p) => Some(Quote(ToNat(c, digits), p.0, p.1))
  {
    var a := digits + (gap + rest);
    AfterOwnPrefix("[#", a);
    assert c.isSpace((gap + rest)[0]);
    RunThen(c.isDecimal, digits, gap + rest);
    assert a[..|digits|] == digits && a[|digits|..] == gap + rest;
    SkipBlank(c, gap, rest);
  }

  // ----- And no other line is

  lemma PrefixIs(s: string, prefix: string)
    requires AfterPrefix(s, prefix).Some?
    ensures s == prefix + AfterPrefix(s, prefix).value
  {
  }

  lemma SpacesAre(c: Chars, s: string) returns (gap: string)
    ensures Blank(c, gap) && |gap| == RunLength(c.isSpace, s) && s == gap + SkipSpaces(c, s)
    ensures SkipSpaces(c, s) != "" ==> !c.isSpace(SkipSpaces(c, s)[0])
  {
    gap := s[..RunLength(c.isSpace, s)];
  }

  /** What is skipped is the optional piece. */
  lemma SaidIs(c: Chars, s: string) returns (said: string, a: string, b: string)
    ensures IsSaid(c, said, a, b) && s == said + SkipSaidEarlier(c, s)
  {
    said, a, b := "", "", "";
    assert s == "" + s;
    if SkipSaidEarlier(c, s) != s {
      said, a, b := SomeSaid(c, s);
    }
  }

  lemma SomeSaid(c: Chars, s: string) returns (said: string, a: string, b: string)
    requires SkipSaidEarlier(c, s) != s
    ensures IsSaid(c, said, a, b) && s == said + SkipSaidEarlier(c, s)
  {
    var x := AfterPrefix(s, ",").value;
    a := SpacesAre(c, x);
    var y := AfterPrefix(SkipSpaces(c, x), "said").value;
    b := SpacesAre(c, y);
    var tail := AfterPrefix(SkipSpaces(c, y), "earlier").value;
    PrefixIs(s, ",");
    PrefixIs(SkipSpaces(c, x), "said");
    PrefixIs(SkipSpaces(c, y), "earlier");
    said := "," + (a + ("said" + (b + "earlier")));
    SaidRegroups(a, b, tail, said);
  }

  lemma TextIs(c: Chars, s: string, who: Speaker) returns (f: Form)
    requires ParseText(c, s).Some?
    ensures f.who == who && IsSaid(c, f.said, f.a, f.b) && Blank(c, f.gap') && f.text != "" && !c.isSpace(f.text[0])
    ensures s == f.said + ("]" + (f.gap' + f.text)) && ParseText(c, s) == Some(Peel(c, f.text))
  {
    var said, a, b := SaidIs(c, s);
    var rest := SkipSaidEarlier(c, s);
    PrefixIs(rest, "]");
    var gap' := SpacesAre(c, AfterPrefix(rest, "]").value);
    f := Form("", "", who, said, a, b, gap', SkipSpaces(c, AfterPrefix(rest, "]").value));
  }

  lemma SpeakerIs(c: Chars, s: string) returns (f: Form)
    requires ParseSpeaker(c, s).Some?
    ensures IsSaid(c, f.said, f.a, f.b) && Blank(c, f.gap') && f.text != "" && !c.isSpace(f.text[0])
    ensures s == Who(f.who) + (f.said + ("]" + (f.gap' + f.text)))
    ensures ParseSpeaker(c, s) == Some((f.who, Peel(c, f.text)))
  {
    if AfterPrefix(s, "attorney").Some? {
      PrefixIs(s, "attorney");
      f := TextIs(c, AfterPrefix(s, "attorney").value, AttorneySaid);
    } else {
      PrefixIs(s, "assistant");
      f := TextIs(c, AfterPrefix(s, "assistant").value, AssistantSaid);
    }
  }

  lemma LineSplits(c: Chars, line: string) returns (digits: string, gap: string, rest: string)
    requires ParseLine(c, line).Some?
    ensures Digits(c, digits) && Blank(c, gap) && gap != "" && line == "[#" + (digits + (gap + rest))
    ensures ParseSpeaker(c, rest).Some?
    ensures ParseLine(c, line) == Some(Quote(ToNat(c, digits), ParseSpeaker(c, rest).value.0,
                                             ParseSpeaker(c, rest).value.1))
  {
    PrefixIs(line, "[#");
    var a := AfterPrefix(line, "[#").value;
    var d := RunLength(c.isDecimal, a);
    digits, rest := a[..d], SkipSpaces(c, a[d..]);
    gap := SpacesAre(c, a[d..]);
    assert a == digits + a[d..];
  }

  /** A line that is read has the form, and is read as it says. */
  lemma ReadHasForm(c: Chars, line: string) returns (f: Form)
    requires ParseLine(c, line).Some?
    ensures IsForm(c, f) && line == LineOf(f)
    ensures ParseLine(c, line) == Some(Quote(ToNat(c, f.digits), f.who, Peel(c, f.text)))
  {
    var digits, gap, rest := LineSplits(c, line);
    f := SpeakerIs(c, rest);
    f := f.(digits := digits, gap := gap);
  }
}
