// embed of trackedText.ts: the accepted-changes text placed inside the raw one.

module Embedding {
  import opened Wrappers
  import opened Utf16

  /** Two ways to place the current units in raw, the leftmost and the rightmost; a break has no place, -1. */
  datatype Placements = Placements(left: seq<int>, right: seq<int>)

  /** One way of reading current as raw with stretches taken out, breaks aside. */
  ghost predicate Places(raw: Text, current: Text, f: seq<int>) {
    && |f| == |current|
    && (forall j :: 0 <= j < |f| && IsBreak(current[j]) ==> f[j] == -1)
    && (forall j :: 0 <= j < |f| && !IsBreak(current[j]) ==> 0 <= f[j] < |raw| && raw[f[j]] == current[j])
    && (forall i, j :: 0 <= i < j < |f| && !IsBreak(current[i]) && !IsBreak(current[j]) ==> f[i] < f[j])
  }

  ghost predicate Below(current: Text, f: seq<int>, g: seq<int>)
    requires |f| == |g| == |current|
  {
    forall j :: 0 <= j < |current| && !IsBreak(current[j]) ==> f[j] <= g[j]
  }

  /** left and right are placements, and every placement lies between them. */
  ghost predicate Extremal(raw: Text, current: Text, e: Placements) {
    && Places(raw, current, e.left)
    && Places(raw, current, e.right)
    && forall f :: Places(raw, current, f) ==> Below(current, e.left, f) && Below(current, f, e.right)
  }

  /** Null exactly when current, breaks aside, is not raw with stretches taken
      out. The backward loop reads raw[i] unguarded; it stays inside raw because
      the forward loop succeeded. */
  method Embed(raw: Text, current: Text) returns (e: Option<Placements>)
    ensures e.None? <==> !Subsequence(WithoutBreaks(current), raw)
    ensures e.Some? ==> Extremal(raw, current, e.value)
  {
    var n := |current|;
    var left := new int[n];
    var found := PlaceLeft(raw, current, left);
    if !found {
      NoPlacement(raw, current);
      return None;
    }
    var right := new int[n];
    PlaceRight(raw, current, left, right);
    PlacementIsSubsequence(raw, current, left[..]);
    e := Some(Placements(left[..], right[..]));
  }

  /** f places current[lo..hi). */
  ghost predicate PlacesPart(raw: Text, current: Text, f: seq<int>, lo: int, hi: int) {
    && |f| == |current| && 0 <= lo <= hi <= |current|
    && (forall j :: lo <= j < hi && IsBreak(current[j]) ==> f[j] == -1)
    && (forall j :: lo <= j < hi && !IsBreak(current[j]) ==> 0 <= f[j] < |raw| && raw[f[j]] == current[j])
    && (forall i, j :: lo <= i < j < hi && !IsBreak(current[i]) && !IsBreak(current[j]) ==> f[i] < f[j])
  }

  /** Up to `hi`, no placement starts earlier than `left`, and i is the first raw index still free. */
  ghost predicate Earliest(raw: Text, current: Text, left: seq<int>, hi: int, i: int) {
    && 0 <= hi <= |left| == |current|
    && (forall k :: 0 <= k < hi && !IsBreak(current[k]) ==> left[k] < i)
    && forall f :: Places(raw, current, f) ==>
         && (forall k :: 0 <= k < hi && !IsBreak(current[k]) ==> left[k] <= f[k])
         && (forall k :: hi <= k < |current| && !IsBreak(current[k]) ==> i <= f[k])
  }

  /** From `lo` on, no placement ends later than `right`, and i is the last raw index still free. */
  ghost predicate Latest(raw: Text, current: Text, right: seq<int>, lo: int, i: int) {
    && 0 <= lo <= |right| == |current|
    && (forall k :: lo <= k < |current| && !IsBreak(current[k]) ==> i < right[k])
    && forall f :: Places(raw, current, f) ==>
         && (forall k :: lo <= k < |current| && !IsBreak(current[k]) ==> f[k] <= right[k])
         && (forall k :: 0 <= k < lo && !IsBreak(current[k]) ==> f[k] <= i)
  }

  method PlaceLeft(raw: Text, current: Text, left: array<int>) returns (found: bool)
    requires left.Length == |current|
    modifies left
    ensures found ==> Places(raw, current, left[..])
    ensures found ==> forall f :: Places(raw, current, f) ==> Below(current, left[..], f)
    ensures !found ==> forall f :: !Places(raw, current, f)
  {
    var i := 0;
    for j := 0 to |current|
      invariant 0 <= i <= |raw|
      invariant PlacesPart(raw, current, left[..], 0, j)
      invariant Earliest(raw, current, left[..], j, i)
    {
      ghost var was := left[..];
      if IsBreak(current[j]) {
        left[j] := -1;
        BreakLeft(raw, current, was, j, i);
      } else {
        ghost var free := i;
        while i < |raw| && raw[i] != current[j]
          invariant free <= i <= |raw|
          invariant forall k :: free <= k < i ==> raw[k] != current[j]
        {
          i := i + 1;
        }
        FirstFit(raw, current, was, j, free, i);
        if i == |raw| {
          return false;
        }
        left[j] := i;
        i := i + 1;
      }
      assert left[..] == was[j := left[j]];
    }
    found := true;
  }

  method PlaceRight(raw: Text, current: Text, left: array<int>, right: array<int>)
    requires left.Length == right.Length == |current| && left != right
    requires Places(raw, current, left[..])
    modifies right
    ensures left[..] == old(left[..])
    ensures Places(raw, current, right[..])
    ensures forall f :: Places(raw, current, f) ==> Below(current, f, right[..])
  {
    ghost var l := left[..];
    var i := |raw| - 1;
    var j := |current| - 1;
    while j >= 0
      invariant -1 <= j < |current| && -1 <= i < |raw|
      invariant PlacesPart(raw, current, right[..], j + 1, |current|)
      invariant Latest(raw, current, right[..], j + 1, i)
    {
      ghost var was := right[..];
      if IsBreak(current[j]) {
        right[j] := -1;
        BreakRight(raw, current, was, j, i);
      } else {
        ghost var free := i;
        assert l[j] <= i;
        while raw[i] != current[j]
          invariant l[j] <= i <= free
          invariant forall k :: i < k <= free ==> raw[k] != current[j]
          decreases i - l[j]
        {
          i := i - 1;
        }
        LastFit(raw, current, was, j, free, i);
        right[j] := i;
        i := i - 1;
      }
      assert right[..] == was[j := right[j]];
      j := j - 1;
    }
  }

  lemma BreakLeft(raw: Text, current: Text, left: seq<int>, j: nat, i: int)
    requires j < |current| && IsBreak(current[j])
    requires Earliest(raw, current, left, j, i)
    ensures Earliest(raw, current, left[j := -1], j + 1, i)
  {
  }

  lemma BreakRight(raw: Text, current: Text, right: seq<int>, j: nat, i: int)
    requires j < |current| && IsBreak(current[j])
    requires Latest(raw, current, right, j + 1, i)
    ensures Latest(raw, current, right[j := -1], j, i)
  {
  }

  /** Taking the first raw index that fits keeps the placement earliest. */
  lemma FirstFit(raw: Text, current: Text, left: seq<int>, j: nat, free: int, i: int)
    requires j < |current| && !IsBreak(current[j]) && 0 <= free <= i <= |raw|
    requires Earliest(raw, current, left, j, free)
    requires forall k :: free <= k < i ==> raw[k] != current[j]
    ensures i == |raw| ==> forall f :: !Places(raw, current, f)
    ensures Earliest(raw, current, left[j := i], j + 1, i + 1)
  {
    forall f | Places(raw, current, f)
      ensures i <= f[j] < |raw|
      ensures forall k :: j < k < |current| && !IsBreak(current[k]) ==> i + 1 <= f[k]
    {
      assert free <= f[j] && raw[f[j]] == current[j];
    }
  }

  /** Taking the last raw index that fits keeps the placement latest. */
  lemma LastFit(raw: Text, current: Text, right: seq<int>, j: nat, free: int, i: int)
    requires j < |current| && !IsBreak(current[j]) && 0 <= i <= free < |raw|
    requires Latest(raw, current, right, j + 1, free)
    requires forall k :: i < k <= free ==> raw[k] != current[j]
    ensures Latest(raw, current, right[j := i], j, i - 1)
  {
    forall f | Places(raw, current, f)
      ensures f[j] <= i
      ensures forall k :: 0 <= k < j && !IsBreak(current[k]) ==> f[k] <= i - 1
    {
      assert f[j] <= free && raw[f[j]] == current[j];
    }
  }

  // ----- Placements and subsequences

  lemma {:induction false} SubsequenceUnder<T>(a: seq<T>, x: T, b: seq<T>)
    requires Subsequence(a, b)
    ensures Subsequence(a, [x] + b)
    decreases |b|, 1
  {
    assert ([x] + b)[1..] == b;
    if a != [] && a[0] == x {
      SubsequenceTail(a, b);
    }
  }

  lemma {:induction false} SubsequenceTail<T>(a: seq<T>, b: seq<T>)
    requires a != [] && Subsequence(a, b)
    ensures Subsequence(a[1..], b)
    decreases |b|, 0
  {
    if a[0] == b[0] {
      assert b == [b[0]] + b[1..];
      if a[1..] != [] {
        SubsequenceUnder(a[1..], b[0], b[1..]);
      }
    } else {
      SubsequenceTail(a, b[1..]);
      assert b == [b[0]] + b[1..];
      SubsequenceUnder(a[1..], b[0], b[1..]);
    }
  }

  lemma {:induction false} SubsequenceSkip<T>(a: seq<T>, b: seq<T>, n: nat)
    requires n <= |b| && Subsequence(a, b[n..])
    ensures Subsequence(a, b)
  {
    if n > 0 {
      assert [b[n - 1]] + b[n..] == b[n - 1..];
      SubsequenceUnder(a, b[n - 1], b[n..]);
      SubsequenceSkip(a, b, n - 1);
    }
  }

  function Shift(f: seq<int>, d: int): (g: seq<int>)
    ensures |g| == |f| && forall j :: 0 <= j < |f| ==> g[j] == if f[j] < 0 then f[j] else f[j] + d
  {
    seq(|f|, j requires 0 <= j < |f| => if f[j] < 0 then f[j] else f[j] + d)
  }

  lemma {:induction false} PlacementIsSubsequence(raw: Text, current: Text, f: seq<int>)
    requires Places(raw, current, f)
    ensures Subsequence(WithoutBreaks(current), raw)
    decreases |current|
  {
    if current != [] {
      if IsBreak(current[0]) {
        PlacementIsSubsequence(raw, current[1..], f[1..]);
      } else {
        var p := f[0];
        var rest := raw[p + 1..];
        var g := seq(|f| - 1, j requires 0 <= j < |f| - 1 => if f[j + 1] < 0 then -1 else f[j + 1] - (p + 1));
        assert Places(rest, current[1..], g) by {
          assert forall j :: 0 <= j < |g| ==> current[1..][j] == current[j + 1];
        }
        PlacementIsSubsequence(rest, current[1..], g);
        var w := WithoutBreaks(current);
        assert w[1..] == WithoutBreaks(current[1..]) && raw[p..][1..] == rest;
        assert Subsequence(w, raw[p..]);
        SubsequenceSkip(w, raw, p);
      }
    }
  }

  lemma {:induction false} SubsequenceIsPlacement(raw: Text, current: Text) returns (f: seq<int>)
    requires Subsequence(WithoutBreaks(current), raw)
    ensures Places(raw, current, f)
    decreases |raw| + |current|
  {
    if current == [] {
      f := [];
    } else if IsBreak(current[0]) {
      var g := SubsequenceIsPlacement(raw, current[1..]);
      f := [-1] + g;
    } else {
      var w := WithoutBreaks(current);
      var rest := raw[1..];
      if w[0] == raw[0] {
        assert w[1..] == WithoutBreaks(current[1..]);
        var g := SubsequenceIsPlacement(rest, current[1..]);
        f := [0] + Shift(g, 1);
      } else {
        var g := SubsequenceIsPlacement(rest, current);
        f := Shift(g, 1);
      }
    }
  }

  lemma NoPlacement(raw: Text, current: Text)
    requires forall f :: !Places(raw, current, f)
    ensures !Subsequence(WithoutBreaks(current), raw)
  {
    if Subsequence(WithoutBreaks(current), raw) {
      var f := SubsequenceIsPlacement(raw, current);
    }
  }

  // ----- The sandwich

  /** The raw span a placement gives to current [start, end). */
  predicate Within(a: (int, int), b: (int, int)) {
    b.0 <= a.0 && a.1 <= b.1
  }

  function TrueSpan(f: seq<int>, start: nat, end: nat): (int, int)
    requires start < end <= |f|
  {
    (f[start], f[end - 1] + 1)
  }

  function Tight(e: Placements, start: nat, end: nat): (int, int)
    requires start < end <= |e.left| == |e.right|
  {
    (e.right[start], e.left[end - 1] + 1)
  }

  function Wide(e: Placements, start: nat, end: nat): (int, int)
    requires start < end <= |e.left| == |e.right|
  {
    (e.left[start], e.right[end - 1] + 1)
  }

  /** Whichever way the struck runs really lie, the true span holds the tight
      stretch and is held by the wide one. */
  lemma Sandwich(raw: Text, current: Text, e: Placements, f: seq<int>, start: nat, end: nat)
    requires Extremal(raw, current, e) && Places(raw, current, f)
    requires start < end <= |current| && !IsBreak(current[start]) && !IsBreak(current[end - 1])
    ensures Within(Tight(e, start, end), TrueSpan(f, start, end))
    ensures Within(TrueSpan(f, start, end), Wide(e, start, end))
  {
    assert Below(current, e.left, f) && Below(current, f, e.right);
  }

  /** When both edges have one place only, both stretches are the true span. */
  lemma ExactWhenUnique(raw: Text, current: Text, e: Placements, f: seq<int>, start: nat, end: nat)
    requires Extremal(raw, current, e) && Places(raw, current, f)
    requires start < end <= |current| && !IsBreak(current[start]) && !IsBreak(current[end - 1])
    ensures e.left[start] == e.right[start] && e.left[end - 1] == e.right[end - 1]
            <==> Tight(e, start, end) == Wide(e, start, end)
    ensures Tight(e, start, end) == Wide(e, start, end) ==> TrueSpan(f, start, end) == Tight(e, start, end)
  {
    Sandwich(raw, current, e, f, start, end);
  }

  /** The wide stretch holds the live text, breaks aside, in order. */
  lemma WideHoldsTheText(raw: Text, current: Text, e: Placements, start: nat, end: nat)
    requires Extremal(raw, current, e)
    requires start < end <= |current| && !IsBreak(current[start]) && !IsBreak(current[end - 1])
    ensures 0 <= Wide(e, start, end).0 <= Wide(e, start, end).1 <= |raw|
    ensures Subsequence(WithoutBreaks(current[start..end]), raw[Wide(e, start, end).0..Wide(e, start, end).1])
  {
    var w := Wide(e, start, end);
    assert Below(current, e.left, e.right);
    assert w.0 <= e.left[end - 1] < w.1;
    var g := seq(end - start, j requires 0 <= j < end - start =>
                   if e.left[start + j] < 0 then -1 else e.left[start + j] - w.0);
    var cut := current[start..end];
    assert Places(raw[w.0..w.1], cut, g) by {
      forall j | 0 <= j < |g| && !IsBreak(cut[j])
        ensures 0 <= g[j] < w.1 - w.0 && raw[w.0..w.1][g[j]] == cut[j]
      {
        assert e.left[start] <= e.left[start + j] <= e.left[end - 1];
      }
    }
    PlacementIsSubsequence(raw[w.0..w.1], cut, g);
  }

  /** f gives current [start, end) the tight stretch. */
  ghost predicate FillsTight(raw: Text, current: Text, e: Placements, start: nat, end: nat, f: seq<int>)
    requires start < end <= |current| && Extremal(raw, current, e)
  {
    Places(raw, current, f) && f[start] == e.right[start] && f[end - 1] == e.left[end - 1]
  }

  /** The tight stretch holds the live text exactly when some placement puts the
      first unit at its latest place and the last one at its earliest. */
  lemma TightHoldsTheTextIff(raw: Text, current: Text, e: Placements, start: nat, end: nat)
    requires Extremal(raw, current, e) && start < end <= |current|
    requires !IsBreak(current[start]) && !IsBreak(current[end - 1])
    requires e.right[start] <= e.left[end - 1]
    ensures Subsequence(WithoutBreaks(current[start..end]), raw[e.right[start]..e.left[end - 1] + 1])
            <==> exists f :: FillsTight(raw, current, e, start, end, f)
  {
    var from, stop := e.right[start], e.left[end - 1] + 1;
    if f :| FillsTight(raw, current, e, start, end, f) {
      PartIsPlaced(raw, current, f, start, end, from, stop);
    }
    if Subsequence(WithoutBreaks(current[start..end]), raw[from..stop]) {
      var g := SubsequenceIsPlacement(raw[from..stop], current[start..end]);
      var f := Glued(raw, current, e, start, end, g);
    }
  }

  /** One edge with a single place is enough. */
  lemma TightHoldsWhenAnEdgeIsUnique(raw: Text, current: Text, e: Placements, start: nat, end: nat)
    requires Extremal(raw, current, e) && start < end <= |current|
    requires !IsBreak(current[start]) && !IsBreak(current[end - 1])
    requires e.right[start] <= e.left[end - 1]
    requires e.left[start] == e.right[start] || e.left[end - 1] == e.right[end - 1]
    ensures Subsequence(WithoutBreaks(current[start..end]), raw[e.right[start]..e.left[end - 1] + 1])
  {
    if e.left[start] == e.right[start] {
      assert FillsTight(raw, current, e, start, end, e.left);
    } else {
      assert FillsTight(raw, current, e, start, end, e.right);
    }
    TightHoldsTheTextIff(raw, current, e, start, end);
  }

  /** The stretch a placement gives a part holds the part. */
  lemma PartIsPlaced(raw: Text, current: Text, f: seq<int>, start: nat, end: nat, from: int, stop: int)
    requires Places(raw, current, f) && start < end <= |current|
    requires !IsBreak(current[start]) && !IsBreak(current[end - 1])
    requires from == f[start] && stop == f[end - 1] + 1
    ensures 0 <= from < stop <= |raw|
    ensures Subsequence(WithoutBreaks(current[start..end]), raw[from..stop])
  {
    var cut := current[start..end];
    var g := seq(end - start, j requires 0 <= j < end - start => if f[start + j] < 0 then -1 else f[start + j] - from);
    assert Places(raw[from..stop], cut, g) by {
      forall j | 0 <= j < |g| && !IsBreak(cut[j])
        ensures 0 <= g[j] < stop - from && raw[from..stop][g[j]] == cut[j]
      {
        assert f[start] <= f[start + j] <= f[end - 1];
      }
    }
    PlacementIsSubsequence(raw[from..stop], cut, g);
  }

  /** The earliest places before a part, the part's own within its tight stretch, the latest places after it. */
  function Glue(e: Placements, start: nat, end: nat, g: seq<int>): (f: seq<int>)
    requires |e.left| == |e.right| && start < end <= |e.left| && |g| == end - start
    ensures |f| == |e.left|
    ensures forall j :: 0 <= j < start ==> f[j] == e.left[j]
    ensures forall j :: start <= j < end ==> f[j] == if g[j - start] < 0 then -1 else g[j - start] + e.right[start]
    ensures forall j :: end <= j < |f| ==> f[j] == e.right[j]
  {
    seq(|e.left|, j requires 0 <= j < |e.left| =>
      if j < start then e.left[j]
      else if j >= end then e.right[j]
      else if g[j - start] < 0 then -1
      else g[j - start] + e.right[start])
  }

  lemma Glued(raw: Text, current: Text, e: Placements, start: nat, end: nat, g: seq<int>) returns (f: seq<int>)
    requires Extremal(raw, current, e) && start < end <= |current|
    requires !IsBreak(current[start]) && !IsBreak(current[end - 1])
    requires e.right[start] <= e.left[end - 1]
    requires Places(raw[e.right[start]..e.left[end - 1] + 1], current[start..end], g)
    ensures FillsTight(raw, current, e, start, end, f)
  {
    f := Glue(e, start, end, g);
    assert Below(current, e.left, e.right);
    GluedUnits(raw, current, e, start, end, g, f);
    GluedInOrder(raw, current, e, start, end, g, f);
    assert Places(raw, current, f);
    assert Below(current, e.left, f) && Below(current, f, e.right);
  }

  lemma GluedUnits(raw: Text, current: Text, e: Placements, start: nat, end: nat, g: seq<int>, f: seq<int>)
    requires Places(raw, current, e.left) && Places(raw, current, e.right)
    requires start < end <= |current| && !IsBreak(current[start]) && !IsBreak(current[end - 1])
    requires e.right[start] <= e.left[end - 1]
    requires Places(raw[e.right[start]..e.left[end - 1] + 1], current[start..end], g)
    requires f == Glue(e, start, end, g)
    ensures forall j :: 0 <= j < |f| && IsBreak(current[j]) ==> f[j] == -1
    ensures forall j :: 0 <= j < |f| && !IsBreak(current[j]) ==> 0 <= f[j] < |raw| && raw[f[j]] == current[j]
    ensures forall j :: start <= j < end && !IsBreak(current[j]) ==> e.right[start] <= f[j] <= e.left[end - 1]
  {
    var cut := current[start..end];
    forall j | start <= j < end
      ensures IsBreak(current[j]) ==> f[j] == -1
      ensures !IsBreak(current[j]) ==> e.right[start] <= f[j] <= e.left[end - 1] && raw[f[j]] == current[j]
    {
      assert cut[j - start] == current[j];
    }
  }

  lemma GluedInOrder(raw: Text, current: Text, e: Placements, start: nat, end: nat, g: seq<int>, f: seq<int>)
    requires Places(raw, current, e.left) && Places(raw, current, e.right) && Below(current, e.left, e.right)
    requires start < end <= |current| && !IsBreak(current[start]) && !IsBreak(current[end - 1])
    requires e.right[start] <= e.left[end - 1]
    requires Places(raw[e.right[start]..e.left[end - 1] + 1], current[start..end], g)
    requires f == Glue(e, start, end, g)
    ensures forall i, j :: 0 <= i < j < |f| && !IsBreak(current[i]) && !IsBreak(current[j]) ==> f[i] < f[j]
  {
    GluedUnits(raw, current, e, start, end, g, f);
    var cut := current[start..end];
    forall i, j | 0 <= i < j < |f| && !IsBreak(current[i]) && !IsBreak(current[j])
      ensures f[i] < f[j]
    {
      if start <= i && j < end {
        assert cut[i - start] == current[i] && cut[j - start] == current[j];
        assert g[i - start] < g[j - start];
      } else if i < start {
        assert e.left[i] < e.left[start] <= e.right[start];
        assert j >= end ==> e.left[i] < e.left[j] <= e.right[j];
      } else {
        assert e.left[end - 1] <= e.right[end - 1] < e.right[j];
        assert i >= end ==> e.right[i] < e.right[j];
      }
    }
  }

  /** The tight stretch need not hold the live text: in raw "abacbc" the live
      "abc" has the tight stretch "ac". */
  lemma TightMayLoseText()
    ensures var raw: Text := [97, 98, 97, 99, 98, 99];
            var current: Text := [97, 98, 99];
            var e := Placements([0, 1, 3], [2, 4, 5]);
            && Extremal(raw, current, e) && Tight(e, 0, 3) == (2, 4)
            && raw[2..4] == [97, 99] && !Subsequence(current, raw[2..4])
  {
    SmallExtremal();
    var raw: Text := [97, 98, 97, 99, 98, 99];
    assert raw[2..4] == [97, 99];
    assert !Subsequence<Unit>([98, 99], [99]);
  }

  lemma SmallExtremal()
    ensures Extremal([97, 98, 97, 99, 98, 99], [97, 98, 99], Placements([0, 1, 3], [2, 4, 5]))
  {
    var raw: Text := [97, 98, 97, 99, 98, 99];
    var current: Text := [97, 98, 99];
    PlacesThree(raw, current, [0, 1, 3]);
    PlacesThree(raw, current, [2, 4, 5]);
    forall f | Places(raw, current, f)
      ensures Below(current, [0, 1, 3], f) && Below(current, f, [2, 4, 5])
    {
      SmallPlaced(raw, current, f);
      BelowThree(current, [0, 1, 3], f);
      BelowThree(current, f, [2, 4, 5]);
    }
  }

  lemma PlacesThree(raw: Text, current: Text, f: seq<int>)
    requires |f| == |current| == 3 && 0 <= f[0] < f[1] < f[2] < |raw|
    requires raw[f[0]] == current[0] && raw[f[1]] == current[1] && raw[f[2]] == current[2]
    requires !IsBreak(current[0]) && !IsBreak(current[1]) && !IsBreak(current[2])
    ensures Places(raw, current, f)
  {
  }

  lemma BelowThree(current: Text, f: seq<int>, g: seq<int>)
    requires |f| == |g| == |current| == 3 && f[0] <= g[0] && f[1] <= g[1] && f[2] <= g[2]
    ensures Below(current, f, g)
  {
  }

  lemma SmallPlaced(raw: Text, current: Text, f: seq<int>)
    requires raw == [97, 98, 97, 99, 98, 99] && current == [97, 98, 99] && Places(raw, current, f)
    ensures |f| == 3 && 0 <= f[0] <= 2 && 1 <= f[1] <= 4 && 3 <= f[2] <= 5
  {
    assert raw[f[0]] == 97 && raw[f[1]] == 98 && raw[f[2]] == 99;
  }
}
