// The quotes a condensed segment holds: the trusted ones up to the cap, in row
// order, and of those the oldest dropped until enough is freed.

module HeldQuotes {
  import opened SentenceGate
  import opened QuoteLines
  import opened ConversationLog
  import opened Collections
  import opened Compaction

  /** The largest number of quotes that leaves room for the characters asked
      for, at 141 a line, between the floor and the ceiling of the settings. */
  ghost predicate IsCap(s: Settings, rawChars: nat, reclaim: nat, cap: nat) {
    var needed := |RenderSegment([], 0)| + reclaim;
    if reclaim == 0 then cap == s.maxQuotes
    else
      && s.minQuotes <= cap
      && (cap > s.minQuotes ==> cap <= s.maxQuotes && needed + 141 * cap <= rawChars)
      && (cap < s.maxQuotes ==> needed + 141 * (cap + 1) > rawChars)
  }

  lemma CapIs(s: Settings, rawChars: nat, reclaim: nat)
    ensures IsCap(s, rawChars, reclaim, QuoteCap(s, rawChars, reclaim))
  {
    var room: int := rawChars - reclaim - |RenderSegment([], 0)|;
    FloorIs(room, 141);
  }

  lemma FloorIs(a: int, b: nat)
    requires b > 0
    ensures b * (a / b) <= a < b * (a / b + 1)
  {
  }

  /** The quotes that were kept, at their places among those read; those under
      the cap in row order; and how many of them were dropped to save space. */
  datatype Choice = Choice(at: seq<nat>, kept: seq<Quote>, cap: nat, sorted: seq<Quote>, n: nat)

  /** The trusted quotes of an answer, in its order. */
  ghost predicate KeepsTrusted(
    c: Chars, qs: seq<Quote>, rows: seq<Row>, from: nat, upto: nat, at: seq<nat>, kept: seq<Quote>)
  {
    && Ascending(at) && KeptAt(qs, kept, at)
    && forall k: nat :: k < |qs| ==> (k in at <==> Trusted(c, qs[k], rows, from, upto))
  }

  /** The same quotes, in row order, those of one row as they were. */
  ghost predicate Sorts(qs: seq<Quote>, sorted: seq<Quote>) {
    && multiset(sorted) == multiset(qs)
    && (forall i, j :: 0 <= i < j < |sorted| ==> sorted[i].rowId <= sorted[j].rowId)
    && forall id :: OfRow(sorted, id) == OfRow(qs, id)
  }

  /** The n oldest quotes go, one by one while too little is freed and more than the floor is left. */
  ghost predicate Drops(s: Settings, sorted: seq<Quote>, n: nat, count: nat, rawChars: nat, reclaim: nat) {
    && n <= |sorted|
    && (reclaim == 0 ==> n == 0)
    && (n > 0 ==> |sorted| - n >= s.minQuotes)
    && (forall m :: 0 <= m < n ==> FreesTooLittle(sorted, m, count, rawChars, reclaim))
    && (reclaim > 0 && |sorted| - n > s.minQuotes ==> !FreesTooLittle(sorted, n, count, rawChars, reclaim))
  }

  /** sorted[n..] is what is held of the quotes kept: the first ones up to the
      cap, in row order, without the n oldest. */
  ghost predicate HoldsOf(
    s: Settings, kept: seq<Quote>, count: nat, rawChars: nat, reclaim: nat, cap: nat, sorted: seq<Quote>, n: nat)
  {
    && IsCap(s, rawChars, reclaim, cap)
    && Sorts(if |kept| <= cap then kept else kept[..cap], sorted)
    && Drops(s, sorted, n, count, rawChars, reclaim)
  }

  /** What a segment made of the quotes read holds. */
  ghost predicate Holds(
    c: Chars, s: Settings, qs: seq<Quote>, rows: seq<Row>, from: nat, upto: nat, reclaim: nat, w: Choice)
  {
    && KeepsTrusted(c, qs, rows, from, upto, w.at, w.kept)
    && HoldsOf(s, w.kept, |rows|, CharCount(rows), reclaim, w.cap, w.sorted, w.n)
  }

  lemma KeptIsHeld(s: Settings, kept: seq<Quote>, count: nat, rawChars: nat, reclaim: nat)
    returns (cap: nat, sorted: seq<Quote>, n: nat)
    ensures HoldsOf(s, kept, count, rawChars, reclaim, cap, sorted, n)
    ensures SegmentQuotes(s, kept, count, rawChars, reclaim) == sorted[n..]
  {
    cap := QuoteCap(s, rawChars, reclaim);
    CapIs(s, rawChars, reclaim);
    sorted := SortByRow(First(kept, cap));
    SortSorts(First(kept, cap));
    n := TrimDrops(s, sorted, count, rawChars, reclaim);
  }

  lemma SortSorts(qs: seq<Quote>)
    ensures Sorts(qs, SortByRow(qs))
  {
    SortOrders(qs);
    forall id
      ensures OfRow(SortByRow(qs), id) == OfRow(qs, id)
    {
      SortIsStable(qs, id);
    }
  }

  /** The segment of all but the m oldest quotes frees too little. */
  ghost predicate FreesTooLittle(sorted: seq<Quote>, m: nat, count: nat, rawChars: nat, reclaim: nat)
    requires m <= |sorted|
  {
    rawChars - |RenderSegment(sorted[m..], count)| < reclaim
  }

  lemma TrimDrops(s: Settings, sorted: seq<Quote>, count: nat, rawChars: nat, reclaim: nat) returns (n: nat)
    ensures Drops(s, sorted, n, count, rawChars, reclaim)
    ensures Trimmed(s, sorted, count, rawChars, reclaim) == sorted[n..]
  {
    n := TrimmedIsLongest(s, sorted, count, rawChars, reclaim);
    forall m | 0 <= m < n
      ensures reclaim > 0 && FreesTooLittle(sorted, m, count, rawChars, reclaim)
    {
      assert TooLong(s, sorted[m..], count, rawChars, reclaim);
    }
    assert TooLong(s, sorted[n..], count, rawChars, reclaim) <==>
           reclaim > 0 && |sorted| - n > s.minQuotes && FreesTooLittle(sorted, n, count, rawChars, reclaim);
  }
}
