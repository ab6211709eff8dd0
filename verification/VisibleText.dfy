// The visible characters of a text, which trimming, joining and splitting keep.

module VisibleText {
  import opened Strings

  /** The characters that are not white space. */
  function Ink(isSpace: char -> bool, s: string): string {
    if s == [] then []
    else (if isSpace(s[0]) then [] else [s[0]]) + Ink(isSpace, s[1..])
  }

  lemma {:induction false} InkAppend(isSpace: char -> bool, a: string, b: string)
    ensures Ink(isSpace, a + b) == Ink(isSpace, a) + Ink(isSpace, b)
  {
    if a == [] {
      assert a + b == b;
    } else {
      assert (a + b)[1..] == a[1..] + b;
      InkAppend(isSpace, a[1..], b);
    }
  }

  lemma {:induction false} InkOfTrim(isSpace: char -> bool, s: string)
    ensures Ink(isSpace, Trim(isSpace, s)) == Ink(isSpace, s)
  {
    if s != [] {
      if isSpace(s[0]) {
        InkOfTrim(isSpace, s[1..]);
      } else if isSpace(s[|s| - 1]) {
        var init := s[..|s| - 1];
        InkOfTrim(isSpace, init);
        assert s == init + [s[|s| - 1]];
        InkAppend(isSpace, init, [s[|s| - 1]]);
        assert [s[|s| - 1]][1..] == [];
      }
    }
  }

  function InkAll(isSpace: char -> bool, ss: seq<string>): string {
    if ss == [] then [] else Ink(isSpace, ss[0]) + InkAll(isSpace, ss[1..])
  }

  lemma {:induction false} InkAllAppend(isSpace: char -> bool, a: seq<string>, b: seq<string>)
    ensures InkAll(isSpace, a + b) == InkAll(isSpace, a) + InkAll(isSpace, b)
  {
    if a == [] {
      assert a + b == b;
    } else {
      assert (a + b)[1..] == a[1..] + b;
      InkAllAppend(isSpace, a[1..], b);
    }
  }

  lemma InkAllOne(isSpace: char -> bool, s: string)
    ensures InkAll(isSpace, [s]) == Ink(isSpace, s)
  {
    assert [s][1..] == [];
  }

  lemma {:induction false} InkOfJoinLines(isSpace: char -> bool, ls: seq<string>)
    requires isSpace('\n')
    ensures Ink(isSpace, JoinLines(ls)) == InkAll(isSpace, ls)
  {
    if |ls| == 1 {
      InkAllOne(isSpace, ls[0]);
      assert ls == [ls[0]];
    } else if |ls| > 1 {
      InkOfJoinLines(isSpace, ls[1..]);
      InkOfSpace(isSpace, '\n');
      InkBetween(isSpace, ls[0], "\n", JoinLines(ls[1..]));
    }
  }

  lemma InkCons(isSpace: char -> bool, s: string)
    requires s != []
    ensures Ink(isSpace, s) == Ink(isSpace, [s[0]]) + Ink(isSpace, s[1..])
  {
    assert [s[0]][1..] == [];
  }

  lemma InkOfSpace(isSpace: char -> bool, gap: char)
    requires isSpace(gap)
    ensures Ink(isSpace, [gap]) == []
  {
    assert [gap][1..] == [];
  }

  lemma InkBetween(isSpace: char -> bool, a: string, gap: string, b: string)
    requires Ink(isSpace, gap) == []
    ensures Ink(isSpace, a + gap + b) == Ink(isSpace, a) + Ink(isSpace, b)
  {
    InkAppend(isSpace, a + gap, b);
    InkAppend(isSpace, a, gap);
  }

  // ----- Words

  /** str.split() */
  function Words(isSpace: char -> bool, s: string): (ws: seq<string>)
    ensures s != [] && !isSpace(s[|s| - 1]) ==> ws != []
  {
    if s == [] then []
    else
      var n := |s| - 1;
      var ws := Words(isSpace, s[..n]);
      if isSpace(s[n]) then ws
      else if n == 0 || isSpace(s[n - 1]) then ws + [[s[n]]]
      else ws[..|ws| - 1] + [ws[|ws| - 1] + [s[n]]]
  }

  function Spaced(ws: seq<string>): string {
    if ws == [] then ""
    else if |ws| == 1 then ws[0]
    else Spaced(ws[..|ws| - 1]) + " " + ws[|ws| - 1]
  }

  predicate NoneEmpty(ws: seq<string>) {
    forall i :: 0 <= i < |ws| ==> ws[i] != ""
  }

  lemma SpacedNext(ws: seq<string>, w: string)
    ensures Spaced(ws + [w]) == if ws == [] then w else Spaced(ws) + " " + w
  {
    assert (ws + [w])[..|ws|] == ws;
  }

  lemma SpacedLonger(init: seq<string>, w: string, t: string)
    ensures Spaced(init + [w + t]) == Spaced(init + [w]) + t
  {
    SpacedNext(init, w + t);
    SpacedNext(init, w);
    Regroup(Spaced(init) + " ", w, t);
  }

  lemma Regroup(a: string, b: string, c: string)
    ensures a + (b + c) == a + b + c
  {
  }

  /** One more character of a word begins a new word or lengthens the last. */
  lemma SpacedOn(ws: seq<string>, ch: char, begins: bool)
    requires NoneEmpty(ws) && (begins || ws != [])
    ensures var next := if begins then ws + [[ch]] else ws[..|ws| - 1] + [ws[|ws| - 1] + [ch]];
            && NoneEmpty(next)
            && Spaced(next) == if begins && ws != [] then Spaced(ws) + " " + [ch] else Spaced(ws) + [ch]
  {
    if begins {
      SpacedNext(ws, [ch]);
      assert "" + [ch] == [ch];
    } else {
      SpacedLonger(ws[..|ws| - 1], ws[|ws| - 1], [ch]);
      assert ws[..|ws| - 1] + [ws[|ws| - 1]] == ws;
    }
  }

  lemma SpacedIsSome(ws: seq<string>)
    requires NoneEmpty(ws)
    ensures Spaced(ws) == "" <==> ws == []
  {
  }

  /** Squeezing leaves the words with one space between. */
  lemma {:induction false} SqueezeIsSpaced(isSpace: char -> bool, s: string)
    ensures Squeeze(isSpace, s) == Spaced(Words(isSpace, s)) && NoneEmpty(Words(isSpace, s))
  {
    if s != [] {
      var n := |s| - 1;
      var ws := Words(isSpace, s[..n]);
      SqueezeIsSpaced(isSpace, s[..n]);
      SpacedIsSome(ws);
      if !isSpace(s[n]) {
        SpacedOn(ws, s[n], n == 0 || isSpace(s[n - 1]));
        assert "" + [s[n]] == [s[n]];
      }
    }
  }
}
