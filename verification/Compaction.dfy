// compact_conversation of compaction.py: the model is asked twice at most, its
// trusted quotes are capped, put in row order and trimmed to the size asked for,
// and the segment is written only when it saves space.

module Compaction {
  import opened Wrappers
  import opened SentenceGate
  import opened Strings
  import opened QuoteLines
  import opened ConversationLog

  datatype Settings = Settings(maxQuotes: nat, minQuotes: nat, keepRecent: nat)

  const CHARS_PER_QUOTE_LINE := 141

  const SEGMENT_FOOTER := "--- END EARLIER IN THIS CONVERSATION ---"

  function SegmentHeader(count: nat): string {
    "--- EARLIER IN THIS CONVERSATION (" + Decimal(count) + " earlier messages, condensed) ---\n"
    + "This is recalled discussion, not a current finding. The attached document,\n"
    + "the prior review and the playbook above take precedence over anything here."
  }

  function RenderSegment(quotes: seq<Quote>, count: nat): string {
    JoinLines([SegmentHeader(count), ""] + RenderLines(quotes) + [SEGMENT_FOOTER])
  }

  // ----- Rows as the model sees them

  /** _sanitize_history: structured blocks stripped from assistant turns, turns of nothing else dropped. */
  function Sanitized(strip: string -> string, rows: seq<StoredRow>): seq<Row> {
    if rows == [] then []
    else
      var rest := Sanitized(strip, rows[1..]);
      var r := rows[0];
      if r.role == User then [Row(r.id, r.role, r.content)] + rest
      else if strip(r.content) == "" then rest
      else [Row(r.id, r.role, strip(r.content))] + rest
  }

  function CharCount(rows: seq<Row>): nat {
    if rows == [] then 0 else |rows[0].content| + CharCount(rows[1..])
  }

  // ----- Row order

  predicate InRowOrder(qs: seq<Quote>) {
    forall i, j :: 0 <= i < j < |qs| ==> qs[i].rowId <= qs[j].rowId
  }

  /** Into its place in a sorted list, after quotes of the same row. */
  function Insert(qs: seq<Quote>, q: Quote): seq<Quote> {
    if qs == [] || qs[|qs| - 1].rowId <= q.rowId then qs + [q]
    else Insert(qs[..|qs| - 1], q) + [qs[|qs| - 1]]
  }

  /** sorted(quotes, key=row_id) */
  function SortByRow(qs: seq<Quote>): seq<Quote> {
    if qs == [] then [] else Insert(SortByRow(qs[..|qs| - 1]), qs[|qs| - 1])
  }

  function OfRow(qs: seq<Quote>, id: nat): seq<Quote> {
    if qs == [] then []
    else
      var p := OfRow(qs[..|qs| - 1], id);
      if qs[|qs| - 1].rowId == id then p + [qs[|qs| - 1]] else p
  }

  lemma {:induction false} InsertHolds(qs: seq<Quote>, q: Quote)
    ensures |Insert(qs, q)| == |qs| + 1
    ensures forall x :: x in Insert(qs, q) <==> x == q || x in qs
  {
    if qs != [] && q.rowId < qs[|qs| - 1].rowId {
      InsertHolds(qs[..|qs| - 1], q);
      assert qs == qs[..|qs| - 1] + [qs[|qs| - 1]];
    }
  }

  lemma {:induction false} InsertAdds(qs: seq<Quote>, q: Quote)
    ensures multiset(Insert(qs, q)) == multiset(qs) + multiset{q}
  {
    if qs != [] && q.rowId < qs[|qs| - 1].rowId {
      InsertAdds(qs[..|qs| - 1], q);
      assert qs == qs[..|qs| - 1] + [qs[|qs| - 1]];
    }
  }

  lemma {:induction false} InsertKeepsOrder(qs: seq<Quote>, q: Quote)
    requires InRowOrder(qs)
    ensures InRowOrder(Insert(qs, q))
  {
    if qs != [] && q.rowId < qs[|qs| - 1].rowId {
      var init := qs[..|qs| - 1];
      InsertKeepsOrder(init, q);
      InsertHolds(init, q);
      var all := Insert(init, q);
      forall i | 0 <= i < |all|
        ensures all[i].rowId <= qs[|qs| - 1].rowId
      {
        assert all[i] in all;
      }
    }
  }

  lemma {:induction false} InsertIsStable(qs: seq<Quote>, q: Quote, id: nat)
    requires InRowOrder(qs)
    ensures OfRow(Insert(qs, q), id) == if q.rowId == id then OfRow(qs, id) + [q] else OfRow(qs, id)
  {
    if qs == [] || qs[|qs| - 1].rowId <= q.rowId {
      assert (qs + [q])[..|qs|] == qs;
    } else {
      var init, last := qs[..|qs| - 1], qs[|qs| - 1];
      InsertIsStable(init, q, id);
      assert (Insert(init, q) + [last])[..|Insert(init, q)|] == Insert(init, q);
      if last.rowId == id {
        assert q.rowId != id;
      }
    }
  }

  /** The order is the rows', and the quotes are the same ones. */
  lemma {:induction false} SortOrders(qs: seq<Quote>)
    ensures InRowOrder(SortByRow(qs))
    ensures multiset(SortByRow(qs)) == multiset(qs) && |SortByRow(qs)| == |qs|
  {
    if qs != [] {
      var init, last := qs[..|qs| - 1], qs[|qs| - 1];
      SortOrders(init);
      InsertKeepsOrder(SortByRow(init), last);
      InsertHolds(SortByRow(init), last);
      InsertAdds(SortByRow(init), last);
      assert qs == init + [last];
    }
  }

  /** Quotes of one row keep the order the model gave them. */
  lemma {:induction false} SortIsStable(qs: seq<Quote>, id: nat)
    ensures OfRow(SortByRow(qs), id) == OfRow(qs, id)
  {
    if qs != [] {
      SortIsStable(qs[..|qs| - 1], id);
      SortOrders(qs[..|qs| - 1]);
      InsertIsStable(SortByRow(qs[..|qs| - 1]), qs[|qs| - 1], id);
    }
  }

  // ----- Size

  lemma {:induction false} JoinedTail(a: string, ls: seq<string>)
    requires ls != []
    ensures |JoinLines([a] + ls)| == |a| + 1 + |JoinLines(ls)|
  {
    assert ([a] + ls)[1..] == ls;
  }

  /** Dropping the oldest quote strictly shortens the segment. */
  lemma TrimShortens(quotes: seq<Quote>, count: nat)
    requires quotes != []
    ensures |RenderSegment(quotes[1..], count)| + |RenderLine(quotes[0])| + 1 == |RenderSegment(quotes, count)|
    ensures |RenderSegment(quotes[1..], count)| < |RenderSegment(quotes, count)|
  {
    var rest := RenderLines(quotes[1..]);
    FirstLine(quotes);
    OneLineLess(SegmentHeader(count), RenderLine(quotes[0]), rest, SEGMENT_FOOTER);
  }

  lemma FirstLine(quotes: seq<Quote>)
    requires quotes != []
    ensures RenderLines(quotes) == [RenderLine(quotes[0])] + RenderLines(quotes[1..])
  {
  }

  lemma OneLineLess(header: string, line: string, rest: seq<string>, footer: string)
    ensures |JoinLines([header, ""] + ([line] + rest) + [footer])| ==
            |JoinLines([header, ""] + rest + [footer])| + |line| + 1
  {
    var tail := rest + [footer];
    JoinedTail(line, tail);
    JoinedTail("", tail);
    JoinedTail("", [line] + tail);
    JoinedTail(header, [""] + tail);
    JoinedTail(header, [""] + ([line] + tail));
    assert [header, ""] + rest + [footer] == [header] + ([""] + tail);
    assert [header, ""] + ([line] + rest) + [footer] == [header] + ([""] + ([line] + tail));
  }

  // ----- The cap

  /** How many quotes the segment may hold, from the characters asked for. */
  function QuoteCap(s: Settings, rawChars: nat, reclaim: nat): nat {
    if reclaim == 0 then s.maxQuotes
    else
      var fits := (rawChars - reclaim - |RenderSegment([], 0)|) / CHARS_PER_QUOTE_LINE;
      var capped := if fits < s.maxQuotes then fits else s.maxQuotes;
      if capped < s.minQuotes then s.minQuotes else capped
  }

  /** Still above the floor and short of the target. */
  predicate TooLong(s: Settings, quotes: seq<Quote>, count: nat, rawChars: nat, reclaim: nat) {
    reclaim > 0 && |quotes| > s.minQuotes && rawChars - |RenderSegment(quotes, count)| < reclaim
  }

  /** The oldest quotes dropped one by one while the segment is too long. */
  function Trimmed(s: Settings, quotes: seq<Quote>, count: nat, rawChars: nat, reclaim: nat): seq<Quote> {
    if quotes != [] && TooLong(s, quotes, count, rawChars, reclaim)
    then Trimmed(s, quotes[1..], count, rawChars, reclaim) else quotes
  }

  /** What is left is the longest suffix that meets the target, or the floor. */
  lemma {:induction false} TrimmedIsLongest(s: Settings, quotes: seq<Quote>, count: nat, rawChars: nat, reclaim: nat)
    returns (n: nat)
    ensures n <= |quotes| && Trimmed(s, quotes, count, rawChars, reclaim) == quotes[n..]
    ensures !TooLong(s, quotes[n..], count, rawChars, reclaim)
    ensures forall m :: 0 <= m < n ==> TooLong(s, quotes[m..], count, rawChars, reclaim)
    ensures n > 0 ==> |quotes| - n >= s.minQuotes
  {
    if quotes != [] && TooLong(s, quotes, count, rawChars, reclaim) {
      var m := TrimmedIsLongest(s, quotes[1..], count, rawChars, reclaim);
      n := m + 1;
      assert quotes[1..][m..] == quotes[n..];
      forall l | 0 <= l < n
        ensures TooLong(s, quotes[l..], count, rawChars, reclaim)
      {
        if l > 0 {
          assert quotes[1..][l - 1..] == quotes[l..];
        } else {
          assert quotes[0..] == quotes;
        }
      }
    } else {
      n := 0;
      assert quotes[0..] == quotes;
    }
  }

  method TrimToTarget(s: Settings, quotes: seq<Quote>, count: nat, rawChars: nat, reclaim: nat)
    returns (kept: seq<Quote>, content: string)
    ensures kept == Trimmed(s, quotes, count, rawChars, reclaim) && content == RenderSegment(kept, count)
  {
    kept := quotes;
    content := RenderSegment(kept, count);
    while reclaim > 0 && |kept| > s.minQuotes && rawChars - |content| < reclaim
      invariant content == RenderSegment(kept, count)
      invariant Trimmed(s, kept, count, rawChars, reclaim) == Trimmed(s, quotes, count, rawChars, reclaim)
      decreases |kept|
    {
      kept := kept[1..];
      content := RenderSegment(kept, count);
    }
  }

  // ----- One compaction

  /** What one call to the model comes back with. */
  datatype Answer = Unreachable | Wrote(body: string)

  datatype Outcome =
    | NothingToCondense
    | WouldNotSaveSpace
    | ModelUnreachable
    | NotVerified(fatal: Fatal)
    | NotSaved
    | Compacted(fromId: nat, toId: nat, messages: nat, quotes: seq<Quote>, dropped: nat, reclaimed: nat)

  /** The quotes a segment may hold: trusted ones, in row order, within the cap, trimmed to the target. */
  function SegmentQuotes(s: Settings, kept: seq<Quote>, count: nat, rawChars: nat, reclaim: nat): seq<Quote> {
    Trimmed(s, SortByRow(First(kept, QuoteCap(s, rawChars, reclaim))), count, rawChars, reclaim)
  }

  function FatalOf(c: Chars, rows: seq<Row>, from: nat, upto: nat, a: Answer): Option<Fatal> {
    match a
    case Unreachable => None
    case Wrote(body) => Partitioned(c, body, rows, from, upto).fatal
  }

  predicate Answers(c: Chars, rows: seq<Row>, from: nat, upto: nat, a: Answer) {
    a.Wrote? && FatalOf(c, rows, from, upto, a).None?
  }

  /** The segment made of one answer, or why there is none. */
  function FromAnswer(
      c: Chars, s: Settings, body: string, rows: seq<Row>, from: nat, upto: nat, reclaim: nat, saves: bool): Outcome {
    var p := Partitioned(c, body, rows, from, upto);
    var quotes := SegmentQuotes(s, p.kept, |rows|, CharCount(rows), reclaim);
    var content := RenderSegment(quotes, |rows|);
    if |content| >= CharCount(rows) then WouldNotSaveSpace
    else if !saves then NotSaved
    else Compacted(from, upto, |rows|, quotes, |p.dropped|, CharCount(rows) - |content|)
  }

  /** The first answer that gives a trusted quote decides; failing both, the second one's failure is told. */
  function Condense(
    c: Chars, s: Settings, rows: seq<Row>, from: nat, upto: nat,
    reclaim: nat, answers: (Answer, Answer), saves: bool): Outcome
  {
    if rows == [] then NothingToCondense
    else if Answers(c, rows, from, upto, answers.0)
        then FromAnswer(c, s, answers.0.body, rows, from, upto, reclaim, saves)
    else
      match answers.1
      case Unreachable => ModelUnreachable
      case Wrote(body) =>
        match Partitioned(c, body, rows, from, upto).fatal
        case Some(f) => NotVerified(f)
        case None => FromAnswer(c, s, body, rows, from, upto, reclaim, saves)
  }

  function FirstId(rows: seq<StoredRow>): nat {
    if rows == [] then 0 else rows[0].id
  }

  function LastId(rows: seq<StoredRow>): nat {
    if rows == [] then 0 else rows[|rows| - 1].id
  }

  function NewSegments(r: Outcome, k: Key, segmentId: nat): seq<Segment> {
    if r.Compacted? then [Segment(segmentId, k, r.fromId, r.toId, RenderSegment(r.quotes, r.messages))] else []
  }

  method CompactConversation(
    c: Chars, strip: string -> string, s: Settings,
    store: ConversationStore, summaries: SummaryStore, k: Key,
    reclaim: nat, answers: (Answer, Answer), saves: bool, segmentId: nat)
    returns (r: Outcome)
    modifies summaries
    ensures var selected := Selected(store.rows, old(summaries.segments), k, s.keepRecent);
            r == Condense(
                   c, s, Sanitized(strip, selected), FirstId(selected), LastId(selected), reclaim, answers, saves)
    ensures summaries.segments == old(summaries.segments) + NewSegments(r, k, segmentId)
  {
    var selected := Selected(store.rows, summaries.segments, k, s.keepRecent);
    var rows := Sanitized(strip, selected);
    if rows == [] {
      return NothingToCondense;
    }
    r := AskTwice(
      c, s, rows, FirstId(selected), LastId(selected), reclaim, answers, saves, summaries, k, segmentId);
  }

  /** The first answer that can be used is written; the model is asked at most twice. */
  method AskTwice(
    c: Chars, s: Settings, rows: seq<Row>, from: nat, upto: nat,
    reclaim: nat, answers: (Answer, Answer), saves: bool, summaries: SummaryStore, k: Key, segmentId: nat)
    returns (r: Outcome)
    requires rows != []
    modifies summaries
    ensures r == Condense(c, s, rows, from, upto, reclaim, answers, saves)
    ensures summaries.segments == old(summaries.segments) + NewSegments(r, k, segmentId)
  {
    var lastError: Option<Fatal> := None;
    for attempt := 0 to 2
      invariant summaries.segments == old(summaries.segments)
      invariant attempt > 0 ==> !Answers(c, rows, from, upto, answers.0)
      invariant attempt == 2 ==> !Answers(c, rows, from, upto, answers.1)
      invariant attempt > 0 ==> lastError == FatalOf(c, rows, from, upto, if attempt == 1 then answers.0 else answers.1)
    {
      var answer := if attempt == 0 then answers.0 else answers.1;
      if answer.Unreachable? {
        lastError := None;
        continue;
      }
      var body := answer.body;
      var p := PartitionQuotes(c, body, rows, from, upto);
      lastError := p.fatal;
      if p.fatal.Some? {
        continue;
      }
      AnswerDecides(c, s, rows, from, upto, reclaim, answers, saves, attempt);
      r := WriteSegment(c, s, p, body, rows, from, upto, reclaim, saves, summaries, k, segmentId);
      return;
    }
    BothFailed(c, s, rows, from, upto, reclaim, answers, saves);
    r := match lastError case None => ModelUnreachable case Some(f) => NotVerified(f);
  }

  /** The first answer that gives a trusted quote decides the outcome. */
  lemma AnswerDecides(
    c: Chars, s: Settings, rows: seq<Row>, from: nat, upto: nat, reclaim: nat,
    answers: (Answer, Answer), saves: bool, attempt: nat)
    requires rows != [] && attempt < 2
    requires attempt == 1 ==> !Answers(c, rows, from, upto, answers.0)
    requires Answers(c, rows, from, upto, if attempt == 0 then answers.0 else answers.1)
    ensures Condense(c, s, rows, from, upto, reclaim, answers, saves)
            == FromAnswer(c, s, (if attempt == 0 then answers.0 else answers.1).body, rows, from, upto, reclaim, saves)
  {
  }

  lemma BothFailed(
    c: Chars, s: Settings, rows: seq<Row>, from: nat, upto: nat, reclaim: nat, answers: (Answer, Answer), saves: bool)
    requires rows != []
    requires !Answers(c, rows, from, upto, answers.0) && !Answers(c, rows, from, upto, answers.1)
    ensures Condense(c, s, rows, from, upto, reclaim, answers, saves) ==
            match FatalOf(c, rows, from, upto, answers.1) case None => ModelUnreachable case Some(f) => NotVerified(f)
  {
  }

  method WriteSegment(
    c: Chars, s: Settings, p: Partition, body: string, rows: seq<Row>, from: nat, upto: nat,
    reclaim: nat, saves: bool, summaries: SummaryStore, k: Key, segmentId: nat)
    returns (r: Outcome)
    requires p == Partitioned(c, body, rows, from, upto)
    modifies summaries
    ensures r == FromAnswer(c, s, body, rows, from, upto, reclaim, saves)
    ensures summaries.segments == old(summaries.segments) + NewSegments(r, k, segmentId)
  {
    var rawChars := CharCount(rows);
    var cap := QuoteCap(s, rawChars, reclaim);
    var quotes, content := TrimToTarget(s, SortByRow(First(p.kept, cap)), |rows|, rawChars, reclaim);
    if |content| >= rawChars {
      return WouldNotSaveSpace;
    }
    if !saves {
      return NotSaved;
    }
    summaries.AppendSegment(k, from, upto, content, segmentId);
    r := Compacted(from, upto, |rows|, quotes, |p.dropped|, rawChars - |content|);
  }

  // ----- What a success promises

  /** Trusted quotes in row order, within the cap, trimmed to the target or the floor. */
  ghost predicate Sized(c: Chars, s: Settings, rows: seq<Row>, from: nat, upto: nat, reclaim: nat, quotes: seq<Quote>) {
    && SizedWithin(c, rows, from, upto, QuoteCap(s, CharCount(rows), reclaim), quotes)
    && !TooLong(s, quotes, |rows|, CharCount(rows), reclaim)
  }

  ghost predicate SizedWithin(c: Chars, rows: seq<Row>, from: nat, upto: nat, cap: int, quotes: seq<Quote>) {
    AllTrusted(c, quotes, rows, from, upto) && InRowOrder(quotes) && |quotes| <= cap
  }

  ghost predicate AllIn(quotes: seq<Quote>, kept: seq<Quote>) {
    forall q :: q in quotes ==> q in kept
  }

  /** A reported success freed at least one character, holds only trusted quotes
      in row order within the cap, and met the target or is down to the floor. */
  lemma SuccessIsSound(
    c: Chars, s: Settings, rows: seq<Row>, from: nat, upto: nat, reclaim: nat, answers: (Answer, Answer), saves: bool)
    requires Condense(c, s, rows, from, upto, reclaim, answers, saves).Compacted?
    ensures SoundSuccess(
              c, s, rows, from, upto, reclaim, saves, Condense(c, s, rows, from, upto, reclaim, answers, saves))
  {
    if Answers(c, rows, from, upto, answers.0) {
      AnswerDecides(c, s, rows, from, upto, reclaim, answers, saves, 0);
      AnswerIsSound(c, s, answers.0.body, rows, from, upto, reclaim, saves);
    } else if Answers(c, rows, from, upto, answers.1) {
      AnswerDecides(c, s, rows, from, upto, reclaim, answers, saves, 1);
      AnswerIsSound(c, s, answers.1.body, rows, from, upto, reclaim, saves);
    } else {
      BothFailed(c, s, rows, from, upto, reclaim, answers, saves);
    }
  }

  /** What one answer's success promises. */
  ghost predicate SoundSuccess(
    c: Chars, s: Settings, rows: seq<Row>, from: nat, upto: nat, reclaim: nat, saves: bool, r: Outcome)
  {
    && r.Compacted? && saves && r.fromId == from && r.toId == upto && r.messages == |rows|
    && Sized(c, s, rows, from, upto, reclaim, r.quotes)
    && r.reclaimed == CharCount(rows) - |RenderSegment(r.quotes, |rows|)| && r.reclaimed > 0
    && (r.reclaimed >= reclaim || |r.quotes| <= s.minQuotes)
  }

  lemma AnswerIsSound(
    c: Chars, s: Settings, body: string, rows: seq<Row>, from: nat, upto: nat, reclaim: nat, saves: bool)
    requires Partitioned(c, body, rows, from, upto).fatal.None?
    requires FromAnswer(c, s, body, rows, from, upto, reclaim, saves).Compacted?
    ensures SoundSuccess(
              c, s, rows, from, upto, reclaim, saves, FromAnswer(c, s, body, rows, from, upto, reclaim, saves))
  {
    KeptAreTrusted(c, ParsedQuotes(c, body).value, rows, from, upto);
    SegmentIsSound(c, s, Partitioned(c, body, rows, from, upto).kept, rows, from, upto, reclaim);
  }

  /** Whatever trusted quotes come back, what is left of them is trusted, in row order, within the cap and trimmed. */
  lemma SegmentIsSound(c: Chars, s: Settings, kept: seq<Quote>, rows: seq<Row>, from: nat, upto: nat, reclaim: nat)
    requires AllTrusted(c, kept, rows, from, upto)
    ensures Sized(c, s, rows, from, upto, reclaim, SegmentQuotes(s, kept, |rows|, CharCount(rows), reclaim))
    ensures AllIn(SegmentQuotes(s, kept, |rows|, CharCount(rows), reclaim), kept)
  {
    var cap := QuoteCap(s, CharCount(rows), reclaim);
    TrimmedIsSound(c, s, kept, cap, rows, from, upto, |rows|, CharCount(rows), reclaim);
  }

  lemma TrimmedIsSound(
    c: Chars, s: Settings, kept: seq<Quote>, cap: nat, rows: seq<Row>, from: nat, upto: nat,
    count: nat, rawChars: nat, reclaim: nat)
    requires AllTrusted(c, kept, rows, from, upto)
    ensures var quotes := Trimmed(s, SortByRow(First(kept, cap)), count, rawChars, reclaim);
            && SizedWithin(c, rows, from, upto, cap, quotes)
            && !TooLong(s, quotes, count, rawChars, reclaim) && AllIn(quotes, kept)
  {
    var first := First(kept, cap);
    SortOrders(first);
    var n := TrimmedIsLongest(s, SortByRow(first), count, rawChars, reclaim);
    SuffixIsSound(c, kept, first, SortByRow(first), n, rows, from, upto);
  }

  lemma SuffixIsSound(
      c: Chars, kept: seq<Quote>, first: seq<Quote>, sorted: seq<Quote>, n: nat, rows: seq<Row>, from: nat, upto: nat)
    requires AllTrusted(c, kept, rows, from, upto) && first <= kept && InRowOrder(sorted) && n <= |sorted|
    requires multiset(sorted) == multiset(first)
    ensures AllTrusted(c, sorted[n..], rows, from, upto) && InRowOrder(sorted[n..])
    ensures AllIn(sorted[n..], kept)
  {
    forall q | q in sorted
      ensures q in kept
    {
      assert q in multiset(sorted);
      assert q in first;
    }
    forall i | 0 <= i < |sorted[n..]|
      ensures Trusted(c, sorted[n..][i], rows, from, upto)
    {
      assert sorted[n..][i] in sorted;
      var j :| 0 <= j < |kept| && kept[j] == sorted[n..][i];
    }
  }

  /** A segment a success writes is the one the log's Condensed event appends, so every run stays tiled. */
  lemma CompactionIsCondensed(
      strip: string -> string, s: Settings, rows: seq<StoredRow>, segments: seq<Segment>, k: Key, content: string,
      id: nat)
    requires Sanitized(strip, Selected(rows, segments, k, s.keepRecent)) != []
    ensures Enabled(Log(rows, segments), Condensed(k, content, id), s.keepRecent)
    ensures var selected := Selected(rows, segments, k, s.keepRecent);
            Apply(Log(rows, segments), Condensed(k, content, id), s.keepRecent)
            == Log(rows, segments + [Segment(id, k, selected[0].id, selected[|selected| - 1].id, content)])
  {
  }
}
