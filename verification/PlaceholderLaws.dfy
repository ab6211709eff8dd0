// What the placeholder expressions find, told from the characters: which texts
// are markers and bare labels, and where spans, markers and labels are looked for.

module PlaceholderLaws {
  import opened Strings
  import opened Placeholders

  /** The first n characters are a marker: brackets around at most 40 characters
      other than a closing one, or a run of at least two underscores, as long as it goes. */
  ghost predicate MarkerAhead(s: string, n: nat) {
    && n <= |s|
    && ((2 <= n <= 42 && s[0] == '[' && s[n - 1] == ']' && forall k :: 1 <= k < n - 1 ==> s[k] != ']')
        || (n >= 2 && (forall k :: 0 <= k < n ==> s[k] == '_') && (n < |s| ==> s[n] != '_')))
  }

  /** The first n characters are a bare label: brackets around a capital and at
      most 38 characters more, none a closing bracket. */
  ghost predicate LabelAhead(s: string, n: nat) {
    && 3 <= n <= 41 && n <= |s| && s[0] == '[' && 'A' <= s[1] <= 'Z' && s[n - 1] == ']'
    && forall k :: 1 <= k < n - 1 ==> s[k] != ']'
  }

  lemma RunIs(p: char -> bool, s: string, n: nat)
    requires n <= |s| && (forall k :: 0 <= k < n ==> p(s[k])) && (n < |s| ==> !p(s[n]))
    ensures RunLength(p, s) == n
  {
    RunThen(p, s[..n], s[n..]);
    assert s[..n] + s[n..] == s;
  }

  lemma MarkerIs(s: string, n: nat)
    requires MarkerAhead(s, n)
    ensures MarkerLength(s) == n
  {
    if s[0] == '[' {
      RunIs(NotClose, s[1..], n - 2);
    } else {
      RunIs(IsUnderscore, s, n);
    }
  }

  /** The marker found is one, and none is found only where there is none. */
  lemma MarkerFinds(s: string)
    ensures MarkerLength(s) > 0 ==> MarkerAhead(s, MarkerLength(s))
    ensures MarkerLength(s) == 0 <==> forall n: nat :: !MarkerAhead(s, n)
  {
    var m := MarkerLength(s);
    if m > 0 && s[0] != '[' {
      forall k | 0 <= k < m
        ensures s[k] == '_'
      {
        assert IsUnderscore(s[k]);
      }
      assert m < |s| ==> !IsUnderscore(s[m]);
    }
    if m > 0 && s[0] == '[' {
      assert !NotClose(s[1..][m - 2]);
      forall k | 1 <= k < m - 1
        ensures s[k] != ']'
      {
        assert NotClose(s[1..][k - 1]);
      }
    }
    if m == 0 {
      forall n: nat
        ensures !MarkerAhead(s, n)
      {
        if MarkerAhead(s, n) {
          MarkerIs(s, n);
        }
      }
    } else {
      assert MarkerAhead(s, m);
    }
  }

  lemma LabelIs(s: string, n: nat)
    requires LabelAhead(s, n)
    ensures LabelLength(s) == n
  {
    RunIs(NotClose, s[2..], n - 3);
  }

  lemma LabelFinds(s: string)
    ensures LabelLength(s) > 0 ==> LabelAhead(s, LabelLength(s))
    ensures LabelLength(s) == 0 <==> forall n: nat :: !LabelAhead(s, n)
  {
    var m := LabelLength(s);
    if m > 0 {
      forall k | 2 <= k < m - 1
        ensures s[k] != ']'
      {
        assert NotClose(s[2..][k - 2]);
      }
    }
    forall n: nat | LabelAhead(s, n)
      ensures n == m
    {
      LabelIs(s, n);
    }
  }

  /** s is the texts before, between and behind the finds; each find stands where
      it was looked for, and nowhere before it, from the find before on, did one. */
  ghost predicate FoundIn(ahead: (string, nat) -> bool, s: string, gaps: seq<string>, finds: seq<string>)
    decreases |gaps|
  {
    && |gaps| == |finds| + 1 && gaps[0] <= s
    && (forall j :: 0 <= j < |gaps[0]| ==> forall n: nat :: !ahead(s[j..], n))
    && var rest := s[|gaps[0]|..];
       if finds == [] then rest == ""
       else
         |finds[0]| <= |rest| && ahead(rest, |finds[0]|) && finds[0] == rest[..|finds[0]|]
         && FoundIn(ahead, rest[|finds[0]|..], gaps[1..], finds[1..])
  }

  lemma FindFirst(ahead: (string, nat) -> bool, s: string, n: nat, gaps: seq<string>, finds: seq<string>)
    requires n <= |s| && ahead(s, n) && FoundIn(ahead, s[n..], gaps, finds)
    ensures FoundIn(ahead, s, [""] + gaps, [s[..n]] + finds)
  {
    assert ([""] + gaps)[1..] == gaps && ([s[..n]] + finds)[1..] == finds;
    assert s[0..] == s;
  }

  lemma GapFirst(ahead: (string, nat) -> bool, s: string, gaps: seq<string>, finds: seq<string>)
    requires s != [] && (forall n: nat :: !ahead(s, n)) && FoundIn(ahead, s[1..], gaps, finds)
    ensures FoundIn(ahead, s, [[s[0]] + gaps[0]] + gaps[1..], finds)
  {
    var first := [s[0]] + gaps[0];
    assert ([first] + gaps[1..])[1..] == gaps[1..];
    assert s[1..][|gaps[0]|..] == s[|first|..];
    forall j | 0 <= j < |first|
      ensures forall n: nat :: !ahead(s[j..], n)
    {
      if j > 0 {
        assert s[1..][j - 1..] == s[j..];
      } else {
        assert s[0..] == s;
      }
    }
  }

  lemma {:induction false} MarkersFound(ahead: (string, nat) -> bool, s: string)
    returns (gaps: seq<string>, finds: seq<string>)
    requires forall t, n :: ahead(t, n) <==> MarkerAhead(t, n)
    ensures FoundIn(ahead, s, gaps, finds) && |finds| == MarkerCount(s)
    decreases |s|
  {
    if s == [] {
      gaps, finds := [""], [];
    } else {
      MarkerFinds(s);
      var n := MarkerLength(s);
      if n > 0 {
        gaps, finds := MarkersFound(ahead, s[n..]);
        FindFirst(ahead, s, n, gaps, finds);
        gaps, finds := [""] + gaps, [s[..n]] + finds;
      } else {
        gaps, finds := MarkersFound(ahead, s[1..]);
        GapFirst(ahead, s, gaps, finds);
        gaps := [[s[0]] + gaps[0]] + gaps[1..];
      }
    }
  }

  lemma {:induction false} LabelsFound(ahead: (string, nat) -> bool, s: string) returns (gaps: seq<string>)
    requires forall t, n :: ahead(t, n) <==> LabelAhead(t, n)
    ensures FoundIn(ahead, s, gaps, Labels(s))
    decreases |s|
  {
    if s == [] {
      gaps := [""];
    } else {
      LabelFinds(s);
      var n := LabelLength(s);
      if n > 0 {
        gaps := LabelsFound(ahead, s[n..]);
        FindFirst(ahead, s, n, gaps, Labels(s[n..]));
        gaps := [""] + gaps;
      } else {
        gaps := LabelsFound(ahead, s[1..]);
        GapFirst(ahead, s, gaps, Labels(s[1..]));
        gaps := [[s[0]] + gaps[0]] + gaps[1..];
      }
    }
  }

  // ----- Spans

  /** Between two backticks with something and no backtick between them stands a
      span, found first when none opens before; the rest is looked through behind it. */
  lemma {:induction false} SpanFirst(a: string, x: string, b: string)
    requires '`' !in a && '`' !in x && x != ""
    ensures Spans(a + ("`" + (x + ("`" + b)))) == [x] + Spans(b)
    decreases |a|
  {
    var s := a + ("`" + (x + ("`" + b)));
    if a == [] {
      assert s[1..] == x + ("`" + b);
      RunThen(NotTick, x, "`" + b);
      assert s[1..|x| + 1] == x && s[|x| + 2..] == b;
    } else {
      assert s[1..] == a[1..] + ("`" + (x + ("`" + b)));
      assert a[0] in a && '`' !in a[1..];
      SpanFirst(a[1..], x, b);
    }
  }

  /** Two backticks side by side enclose nothing; the second may open a span. */
  lemma EmptySpan(b: string)
    ensures Spans("``" + b) == Spans("`" + b)
  {
    var s := "``" + b;
    assert s[1..] == "`" + b;
    assert RunLength(NotTick, s[1..]) == 0;
  }

  /** A text with one backtick at most has no span. */
  lemma {:induction false} NoSpan(a: string, b: string)
    requires '`' !in a && '`' !in b
    ensures Spans(a) == [] && Spans(a + ("`" + b)) == []
    decreases |a|
  {
    var s := a + ("`" + b);
    if a == [] {
      assert s == "`" + b && s[1..] == b;
      RunThen(NotTick, b, []);
      assert b + [] == b;
      NoTick(b);
    } else {
      assert s[1..] == a[1..] + ("`" + b);
      assert a[0] in a && '`' !in a[1..];
      NoSpan(a[1..], b);
    }
  }

  lemma {:induction false} NoTick(b: string)
    requires '`' !in b
    ensures Spans(b) == []
    decreases |b|
  {
    if b != [] {
      assert b[0] in b && '`' !in b[1..];
      NoTick(b[1..]);
    }
  }
}
