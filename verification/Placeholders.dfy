// _placeholder_candidates of review_recall.py: the placeholders a review quotes,
// found as its three regular expressions find them, left to right.

module Placeholders {
  import opened Strings

  // ----- What the regular expressions find

  predicate NotTick(ch: char) {
    ch != '`'
  }

  predicate NotClose(ch: char) {
    ch != ']'
  }

  predicate IsUnderscore(ch: char) {
    ch == '_'
  }

  /** The texts between backticks. */
  function Spans(s: string): seq<string>
    decreases |s|
  {
    if s == [] then []
    else
      var n := RunLength(NotTick, s[1..]);
      if s[0] == '`' && n > 0 && n + 1 < |s| then [s[1..n + 1]] + Spans(s[n + 2..]) else Spans(s[1..])
  }

  /** Length of the marker s starts with: brackets around at most 40 characters, or a blank of underscores. */
  function MarkerLength(s: string): (n: nat)
    ensures n <= |s|
  {
    if s == [] then 0
    else if s[0] == '[' then
      var n := RunLength(NotClose, s[1..]);
      if n <= 40 && n + 1 < |s| then n + 2 else 0
    else
      var n := RunLength(IsUnderscore, s);
      if n >= 2 then n else 0
  }

  function MarkerCount(s: string): nat
    decreases |s|
  {
    if s == [] then 0
    else if MarkerLength(s) > 0 then 1 + MarkerCount(s[MarkerLength(s)..])
    else MarkerCount(s[1..])
  }

  /** Length of the bare label s starts with: brackets around a capital and at most 38 more characters. */
  function LabelLength(s: string): (n: nat)
    ensures n <= |s|
  {
    if |s| < 2 || s[0] != '[' || !('A' <= s[1] <= 'Z') then 0
    else
      var n := RunLength(NotClose, s[2..]);
      if n <= 38 && n + 2 < |s| then n + 3 else 0
  }

  function Labels(s: string): seq<string>
    decreases |s|
  {
    if s == [] then []
    else if LabelLength(s) > 0 then [s[..LabelLength(s)]] + Labels(s[LabelLength(s)..])
    else Labels(s[1..])
  }

  // ----- The candidates

  /** White space, and the tag of a generated draft's source. */
  datatype Shapes = Shapes(isSpace: char -> bool, hasSourceTag: string -> bool)

  function Add(sh: Shapes, found: seq<string>, raw: string): seq<string> {
    var s := Trim(sh.isSpace, raw);
    if s == "" || s in found || sh.hasSourceTag(s) then found else found + [s]
  }

  function AddEach(sh: Shapes, found: seq<string>, raws: seq<string>): seq<string> {
    if raws == [] then found else Add(sh, AddEach(sh, found, raws[..|raws| - 1]), raws[|raws| - 1])
  }

  /** The spans that carry exactly one marker. */
  function OneMarker(spans: seq<string>): seq<string> {
    if spans == [] then []
    else
      var p := OneMarker(spans[..|spans| - 1]);
      if MarkerCount(spans[|spans| - 1]) == 1 then p + [spans[|spans| - 1]] else p
  }

  function Candidates(sh: Shapes, review: string): seq<string> {
    AddEach(sh, AddEach(sh, [], OneMarker(Spans(review))), Labels(review))
  }

  method PlaceholderCandidates(sh: Shapes, review: string) returns (found: seq<string>)
    ensures found == Candidates(sh, review)
  {
    found := [];
    var spans := Spans(review);
    for i := 0 to |spans|
      invariant found == AddEach(sh, [], OneMarker(spans[..i]))
    {
      OneMarkerNext(sh, spans, i);
      if MarkerCount(spans[i]) == 1 {
        found := Add(sh, found, spans[i]);
      }
    }
    assert spans[..|spans|] == spans;
    ghost var before := found;
    var labels := Labels(review);
    for i := 0 to |labels|
      invariant found == AddEach(sh, before, labels[..i])
    {
      assert labels[..i + 1][..i] == labels[..i];
      found := Add(sh, found, labels[i]);
    }
    assert labels[..|labels|] == labels;
  }

  lemma OneMarkerNext(sh: Shapes, spans: seq<string>, i: nat)
    requires i < |spans|
    ensures var p := OneMarker(spans[..i]);
            && OneMarker(spans[..i + 1]) == (if MarkerCount(spans[i]) == 1 then p + [spans[i]] else p)
            && AddEach(sh, [], p + [spans[i]]) == Add(sh, AddEach(sh, [], p), spans[i])
  {
    assert spans[..i + 1][..i] == spans[..i];
    var p := OneMarker(spans[..i]);
    assert (p + [spans[i]])[..|p|] == p;
  }

  // ----- What the candidates are

  /** s, trimmed, may be a candidate, and one of raws is it. */
  ghost predicate TrimmedFrom(sh: Shapes, raws: seq<string>, c: string) {
    c != "" && !sh.hasSourceTag(c) && exists i :: 0 <= i < |raws| && Trim(sh.isSpace, raws[i]) == c
  }

  ghost predicate Distinct(ss: seq<string>) {
    forall i, j :: 0 <= i < j < |ss| ==> ss[i] != ss[j]
  }

  lemma {:induction false} AddEachAdds(sh: Shapes, found: seq<string>, raws: seq<string>, c: string)
    requires Distinct(found)
    ensures Distinct(AddEach(sh, found, raws))
    ensures c in AddEach(sh, found, raws) <==> c in found || TrimmedFrom(sh, raws, c)
  {
    if raws != [] {
      var n := |raws| - 1;
      AddEachAdds(sh, found, raws[..n], c);
      AddEachAdds(sh, found, raws[..n], Trim(sh.isSpace, raws[n]));
      LastOrBefore(sh, raws, c);
    }
  }

  lemma LastOrBefore(sh: Shapes, raws: seq<string>, c: string)
    requires raws != []
    ensures var n := |raws| - 1;
            TrimmedFrom(sh, raws, c) <==>
            TrimmedFrom(sh, raws[..n], c) || (c != "" && !sh.hasSourceTag(c) && Trim(sh.isSpace, raws[n]) == c)
  {
    var n := |raws| - 1;
    if i :| 0 <= i < n && Trim(sh.isSpace, raws[..n][i]) == c {
      assert Trim(sh.isSpace, raws[i]) == c;
    }
    if i :| 0 <= i < n && Trim(sh.isSpace, raws[i]) == c {
      assert Trim(sh.isSpace, raws[..n][i]) == c;
    }
  }

  lemma {:induction false} OneMarkerHolds(spans: seq<string>, x: string)
    ensures x in OneMarker(spans) <==> x in spans && MarkerCount(x) == 1
  {
    if spans != [] {
      OneMarkerHolds(spans[..|spans| - 1], x);
      assert spans == spans[..|spans| - 1] + [spans[|spans| - 1]];
    }
  }

  /** c is what remains of a span with exactly one marker. */
  ghost predicate IsField(sh: Shapes, review: string, c: string) {
    exists x :: x in Spans(review) && MarkerCount(x) == 1 && Trim(sh.isSpace, x) == c
  }

  ghost predicate IsLabel(sh: Shapes, review: string, c: string) {
    exists x :: x in Labels(review) && Trim(sh.isSpace, x) == c
  }

  /** The candidates, each once: the spans with exactly one marker and the bare
      labels, without the empty ones and those with a source tag. */
  lemma CandidatesAre(sh: Shapes, review: string, c: string)
    ensures Distinct(Candidates(sh, review))
    ensures c in Candidates(sh, review) <==>
            c != "" && !sh.hasSourceTag(c) && (IsField(sh, review, c) || IsLabel(sh, review, c))
  {
    var fields, labels := OneMarker(Spans(review)), Labels(review);
    AddEachAdds(sh, [], fields, c);
    AddEachAdds(sh, AddEach(sh, [], fields), labels, c);
    forall x
      ensures x in fields <==> x in Spans(review) && MarkerCount(x) == 1
    {
      OneMarkerHolds(Spans(review), x);
    }
    if IsField(sh, review, c) {
      var x :| x in Spans(review) && MarkerCount(x) == 1 && Trim(sh.isSpace, x) == c;
      assert x in fields;
    }
  }

  // ----- Reading short texts

  lemma OnlySpan(s: string, x: string)
    requires x != "" && '`' !in x && s == "`" + (x + "`")
    ensures Spans(s) == [x]
  {
    assert s[1..] == x + "`";
    RunThen(NotTick, x, "`");
    assert s[1..|x| + 1] == x && s[|x| + 2..] == [];
  }

  lemma {:induction false} LabelsSkip(a: string, b: string)
    requires '[' !in a
    ensures Labels(a + b) == Labels(b)
    decreases |a|
  {
    if a == [] {
      assert a + b == b;
    } else {
      assert (a + b)[1..] == a[1..] + b;
      assert a[0] != '[' && '[' !in a[1..];
      LabelsSkip(a[1..], b);
    }
  }

  predicate IsLabelText(x: string) {
    x != "" && 'A' <= x[0] <= 'Z' && |x| <= 39 && '[' !in x && ']' !in x && '`' !in x
  }

  /** Text a marker may hold that makes it no label. */
  predicate IsBlankText(x: string) {
    x != "" && !('A' <= x[0] <= 'Z') && |x| <= 40 && '[' !in x && ']' !in x && '`' !in x
  }

  function Bracketed(x: string): (s: string)
    ensures |s| == |x| + 2 && s[0] == '[' && s[|x| + 1] == ']' && s[1..|x| + 1] == x
  {
    "[" + x + "]"
  }

  lemma Opened(x: string, b: string, s: string)
    requires s == Bracketed(x) + b && ']' !in x
    ensures s[1..] == x + ("]" + b) && s[..|x| + 2] == Bracketed(x) && s[|x| + 2..] == b
    ensures RunLength(NotClose, s[1..]) == |x|
    ensures x != "" ==> RunLength(NotClose, s[2..]) == |x| - 1
  {
    assert s[1..] == x + ("]" + b);
    RunThen(NotClose, x, "]" + b);
    if x != "" {
      assert s[2..] == x[1..] + ("]" + b);
      RunThen(NotClose, x[1..], "]" + b);
    }
  }

  lemma LabelFirst(x: string, b: string, s: string)
    requires s == Bracketed(x) + b && IsLabelText(x)
    ensures Labels(s) == [Bracketed(x)] + Labels(b)
  {
    Opened(x, b, s);
    assert s[1] == x[0];
    assert LabelLength(s) == |x| + 2;
  }

  lemma NoLabelFirst(x: string, b: string, s: string)
    requires s == Bracketed(x) + b && IsBlankText(x)
    ensures Labels(s) == Labels(b)
  {
    Opened(x, b, s);
    assert s[1] == x[0];
    assert x + ("]" + b) == (x + "]") + b;
    LabelsSkip(x + "]", b);
  }

  lemma {:induction false} MarkersSkip(a: string, b: string)
    requires '[' !in a && '_' !in a
    ensures MarkerCount(a + b) == MarkerCount(b)
    decreases |a|
  {
    if a == [] {
      assert a + b == b;
    } else {
      assert (a + b)[1..] == a[1..] + b;
      assert a[0] != '[' && a[0] != '_' && '[' !in a[1..] && '_' !in a[1..];
      MarkersSkip(a[1..], b);
    }
  }

  lemma MarkerFirst(x: string, b: string, s: string)
    requires s == Bracketed(x) + b && |x| <= 40 && ']' !in x
    ensures MarkerCount(s) == 1 + MarkerCount(b)
  {
    Opened(x, b, s);
    assert MarkerLength(s) == |x| + 2;
  }

  /** Trimmed already, and without a source tag. */
  predicate Kept(sh: Shapes, s: string) {
    s != "" && !sh.isSpace(s[0]) && !sh.isSpace(s[|s| - 1]) && !sh.hasSourceTag(s)
  }

  lemma TwoAdded(sh: Shapes, a: string, b: string)
    requires a != b && Kept(sh, a) && Kept(sh, b) && MarkerCount(a) == 1
    ensures AddEach(sh, AddEach(sh, [], OneMarker([a])), [b]) == [a, b]
  {
    assert [a][..0] == [] && [b][..0] == [];
    assert OneMarker([a]) == [a];
    assert AddEach(sh, [], [a]) == [a];
  }

  lemma OneAdded(sh: Shapes, a: string, b: string)
    requires MarkerCount(a) != 1 && Kept(sh, b)
    ensures AddEach(sh, AddEach(sh, [], OneMarker([a])), [b]) == [b]
  {
    assert [a][..0] == [] && [b][..0] == [];
    assert OneMarker([a]) == [];
  }

  lemma FieldLabels(a: string, x: string, review: string)
    requires '[' !in a && IsLabelText(x) && review == "`" + (a + Bracketed(x) + "`")
    ensures Labels(review) == [Bracketed(x)]
  {
    assert review == ("`" + a) + (Bracketed(x) + "`");
    LabelsSkip("`" + a, Bracketed(x) + "`");
    LabelFirst(x, "`", Bracketed(x) + "`");
    LabelsSkip("`", "");
    assert "`" + "" == "`";
  }

  lemma FieldMarkers(a: string, x: string)
    requires '[' !in a && '_' !in a && |x| <= 40 && ']' !in x
    ensures MarkerCount(a + Bracketed(x)) == 1
  {
    MarkersSkip(a, Bracketed(x));
    MarkerFirst(x, "", Bracketed(x));
  }

  /** A review of one field in backticks: the field and its label are candidates. */
  lemma FieldAndLabel(sh: Shapes, a: string, x: string, review: string)
    requires a != "" && '[' !in a && '_' !in a && '`' !in a && IsLabelText(x)
    requires Kept(sh, Bracketed(x)) && Kept(sh, a + Bracketed(x))
    requires review == "`" + (a + Bracketed(x) + "`")
    ensures Candidates(sh, review) == [a + Bracketed(x), Bracketed(x)]
  {
    NoTick(x);
    OnlySpan(review, a + Bracketed(x));
    FieldMarkers(a, x);
    FieldLabels(a, x, review);
    TwoAdded(sh, a + Bracketed(x), Bracketed(x));
  }

  lemma NoTick(x: string)
    requires '`' !in x
    ensures '`' !in Bracketed(x)
  {
  }

  /** A label and a blank in one span. */
  function Bundle(x: string, y: string): string {
    Bracketed(x) + (" " + Bracketed(y))
  }

  lemma BundleMarkers(x: string, y: string)
    requires |x| <= 40 && ']' !in x && |y| <= 40 && ']' !in y
    ensures MarkerCount(Bundle(x, y)) == 2
  {
    MarkerFirst(x, " " + Bracketed(y), Bundle(x, y));
    FieldMarkers(" ", y);
  }

  lemma BundleLabels(x: string, y: string, review: string)
    requires IsLabelText(x) && IsBlankText(y) && review == "`" + (Bundle(x, y) + "`")
    ensures Labels(review) == [Bracketed(x)]
  {
    var rest := " " + (Bracketed(y) + "`");
    assert review == "`" + (Bracketed(x) + rest);
    LabelsSkip("`", Bracketed(x) + rest);
    LabelFirst(x, rest, Bracketed(x) + rest);
    LabelsSkip(" ", Bracketed(y) + "`");
    NoLabelFirst(y, "`", Bracketed(y) + "`");
    LabelsSkip("`", "");
    assert "`" + "" == "`";
  }

  /** A span that bundles a label and a blank is no candidate, but the label in it is. */
  lemma BundledLabel(sh: Shapes, x: string, y: string, review: string)
    requires IsLabelText(x) && IsBlankText(y) && Kept(sh, Bracketed(x))
    requires review == "`" + (Bundle(x, y) + "`")
    ensures Candidates(sh, review) == [Bracketed(x)]
  {
    NoTick(x);
    NoTick(y);
    OnlySpan(review, Bundle(x, y));
    BundleMarkers(x, y);
    BundleLabels(x, y, review);
    OneAdded(sh, Bundle(x, y), Bracketed(x));
  }
}
