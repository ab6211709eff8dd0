// What a compaction comes to, told from its inputs: which answer is taken, which
// of its quotes the segment holds, and what is reported when nothing is written.

module CompactionOutcome {
  import opened SentenceGate
  import opened QuoteLines
  import opened ConversationLog
  import opened Compaction
  import opened HeldQuotes

  // ----- Which answer is taken

  ghost predicate SomeTrusted(c: Chars, qs: seq<Quote>, rows: seq<Row>, from: nat, upto: nat) {
    exists k :: 0 <= k < |qs| && Trusted(c, qs[k], rows, from, upto)
  }

  /** The model answered, every line was read, and one quote at least is trusted. */
  ghost predicate Usable(c: Chars, rows: seq<Row>, from: nat, upto: nat, a: Answer) {
    a.Wrote? && ParsedQuotes(c, a.body).Ok? && SomeTrusted(c, ParsedQuotes(c, a.body).value, rows, from, upto)
  }

  lemma KeptIsEmptyIff(c: Chars, qs: seq<Quote>, rows: seq<Row>, from: nat, upto: nat)
    ensures Kept(c, qs, rows, from, upto) == [] <==> !SomeTrusted(c, qs, rows, from, upto)
    ensures Kept(c, qs, rows, from, upto) == [] ==> |Dropped(c, qs, rows, from, upto)| == |qs|
  {
    var at, dropped := KeptAndDropped(c, qs, rows, from, upto);
    if at != [] {
      assert at[0] in at;
    }
  }

  lemma AnswersIff(c: Chars, rows: seq<Row>, from: nat, upto: nat, a: Answer)
    ensures Answers(c, rows, from, upto, a) <==> Usable(c, rows, from, upto, a)
  {
    if a.Wrote? && ParsedQuotes(c, a.body).Ok? {
      KeptIsEmptyIff(c, ParsedQuotes(c, a.body).value, rows, from, upto);
    }
  }

  /** Why an answer could not be used; the model could not be reached when it gave none. */
  ghost predicate IsRefusal(c: Chars, a: Answer, r: Outcome) {
    match a
    case Unreachable => r == ModelUnreachable
    case Wrote(body) =>
      match ParsedQuotes(c, body)
      case Fail(e) => r == NotVerified(Unparsable(e))
      case Ok(qs) => r == NotVerified(NothingSurvived(|qs|))
  }

  // ----- What a segment is made of

  lemma PlacesOfTrusted(c: Chars, qs: seq<Quote>, rows: seq<Row>, from: nat, upto: nat) returns (at: seq<nat>)
    ensures KeepsTrusted(c, qs, rows, from, upto, at, Kept(c, qs, rows, from, upto))
  {
    var dropped;
    at, dropped := KeptAndDropped(c, qs, rows, from, upto);
  }

  lemma SegmentHolds(c: Chars, s: Settings, qs: seq<Quote>, rows: seq<Row>, from: nat, upto: nat, reclaim: nat)
    returns (w: Choice)
    ensures Holds(c, s, qs, rows, from, upto, reclaim, w) && w.kept == Kept(c, qs, rows, from, upto)
    ensures SegmentQuotes(s, Kept(c, qs, rows, from, upto), |rows|, CharCount(rows), reclaim) == w.sorted[w.n..]
  {
    var at := PlacesOfTrusted(c, qs, rows, from, upto);
    var cap, sorted, n := KeptIsHeld(s, Kept(c, qs, rows, from, upto), |rows|, CharCount(rows), reclaim);
    w := Choice(at, Kept(c, qs, rows, from, upto), cap, sorted, n);
  }

  // ----- The outcome

  /** What the quotes read come to: refused when the segment is no smaller than
      the rows, else written with what `w` holds. */
  ghost predicate IsWritten(
    c: Chars, s: Settings, qs: seq<Quote>, rows: seq<Row>, from: nat, upto: nat, reclaim: nat, saves: bool, w: Choice,
    r: Outcome)
  {
    Holds(c, s, qs, rows, from, upto, reclaim, w) &&
    var quotes := w.sorted[w.n..];
    var freed: int := CharCount(rows) - |RenderSegment(quotes, |rows|)|;
    if freed <= 0 then r == WouldNotSaveSpace
    else if !saves then r == NotSaved
    else
      && r.Compacted? && r.fromId == from && r.toId == upto && r.messages == |rows|
      && r.quotes == quotes && r.dropped + |w.kept| == |qs| && r.reclaimed == freed
  }

  ghost predicate ComesTo(
    c: Chars, s: Settings, a: Answer, rows: seq<Row>, from: nat, upto: nat, reclaim: nat, saves: bool, r: Outcome)
    requires Usable(c, rows, from, upto, a)
  {
    exists w :: IsWritten(c, s, ParsedQuotes(c, a.body).value, rows, from, upto, reclaim, saves, w, r)
  }

  /** The first answer that can be used decides; with none, the second one's refusal is told. */
  ghost predicate IsOutcome(
    c: Chars, s: Settings, rows: seq<Row>, from: nat, upto: nat, reclaim: nat, answers: (Answer, Answer), saves: bool,
    r: Outcome)
  {
    if rows == [] then r == NothingToCondense
    else if Usable(c, rows, from, upto, answers.0) then
      ComesTo(c, s, answers.0, rows, from, upto, reclaim, saves, r)
    else if Usable(c, rows, from, upto, answers.1) then
      ComesTo(c, s, answers.1, rows, from, upto, reclaim, saves, r)
    else IsRefusal(c, answers.1, r)
  }

  lemma AnswerComesTo(
    c: Chars, s: Settings, a: Answer, rows: seq<Row>, from: nat, upto: nat, reclaim: nat, saves: bool)
    requires Usable(c, rows, from, upto, a)
    ensures ComesTo(
              c, s, a, rows, from, upto, reclaim, saves, FromAnswer(c, s, a.body, rows, from, upto, reclaim, saves))
  {
    var qs := ParsedQuotes(c, a.body).value;
    var w := SegmentHolds(c, s, qs, rows, from, upto, reclaim);
    var at, dropped := KeptAndDropped(c, qs, rows, from, upto);
    KeptIsEmptyIff(c, qs, rows, from, upto);
    assert IsWritten(c, s, qs, rows, from, upto, reclaim, saves, w,
                     FromAnswer(c, s, a.body, rows, from, upto, reclaim, saves));
  }

  lemma Refusal(c: Chars, rows: seq<Row>, from: nat, upto: nat, a: Answer)
    requires !Usable(c, rows, from, upto, a)
    ensures IsRefusal(c, a, match FatalOf(c, rows, from, upto, a)
                            case None => ModelUnreachable
                            case Some(f) => NotVerified(f))
  {
    if a.Wrote? && ParsedQuotes(c, a.body).Ok? {
      KeptIsEmptyIff(c, ParsedQuotes(c, a.body).value, rows, from, upto);
    }
  }

  lemma CondenseIs(
    c: Chars, s: Settings, rows: seq<Row>, from: nat, upto: nat, reclaim: nat, answers: (Answer, Answer), saves: bool)
    ensures IsOutcome(c, s, rows, from, upto, reclaim, answers, saves,
                      Condense(c, s, rows, from, upto, reclaim, answers, saves))
  {
    AnswersIff(c, rows, from, upto, answers.0);
    AnswersIff(c, rows, from, upto, answers.1);
    if rows == [] {
    } else if Usable(c, rows, from, upto, answers.0) {
      AnswerDecides(c, s, rows, from, upto, reclaim, answers, saves, 0);
      AnswerComesTo(c, s, answers.0, rows, from, upto, reclaim, saves);
    } else if Usable(c, rows, from, upto, answers.1) {
      AnswerDecides(c, s, rows, from, upto, reclaim, answers, saves, 1);
      AnswerComesTo(c, s, answers.1, rows, from, upto, reclaim, saves);
    } else {
      BothFailed(c, s, rows, from, upto, reclaim, answers, saves);
      Refusal(c, rows, from, upto, answers.1);
    }
  }

  // ----- The segment and the log

  /** What a compaction writes is what the log's Condensed event appends: the
      range selected, under a text made of the quotes held; and otherwise nothing. */
  lemma SegmentIsCondensed(
    c: Chars, strip: string -> string, s: Settings, log: Log, k: Key,
    reclaim: nat, answers: (Answer, Answer), saves: bool, id: nat, r: Outcome)
    requires var selected := Selected(log.rows, log.segments, k, s.keepRecent);
             r == Condense(
                    c, s, Sanitized(strip, selected), FirstId(selected), LastId(selected), reclaim, answers, saves)
    ensures !r.Compacted? ==> NewSegments(r, k, id) == []
    ensures r.Compacted? ==> AppendsOne(log, k, s.keepRecent, id, r)
  {
    var selected := Selected(log.rows, log.segments, k, s.keepRecent);
    if r.Compacted? {
      CompactedRange(c, s, Sanitized(strip, selected), FirstId(selected), LastId(selected), reclaim, answers, saves, r);
      assert selected != [];
      RangeIsAppended(log, k, s.keepRecent, id, r, selected);
    }
  }

  lemma CompactedRange(
    c: Chars, s: Settings, rows: seq<Row>, from: nat, upto: nat, reclaim: nat, answers: (Answer, Answer), saves: bool,
    r: Outcome)
    requires r.Compacted? && r == Condense(c, s, rows, from, upto, reclaim, answers, saves)
    ensures rows != [] && r.fromId == from && r.toId == upto
  {
    SuccessIsSound(c, s, rows, from, upto, reclaim, answers, saves);
  }

  lemma RangeIsAppended(log: Log, k: Key, keep: nat, id: nat, r: Outcome, selected: seq<StoredRow>)
    requires selected == Selected(log.rows, log.segments, k, keep) && selected != []
    requires r.Compacted? && r.fromId == FirstId(selected) && r.toId == LastId(selected)
    ensures AppendsOne(log, k, keep, id, r)
  {
  }

  ghost predicate AppendsOne(log: Log, k: Key, keep: nat, id: nat, r: Outcome)
    requires r.Compacted?
  {
    var e := Condensed(k, RenderSegment(r.quotes, r.messages), id);
    Enabled(log, e, keep) && Apply(log, e, keep) == Log(log.rows, log.segments + NewSegments(r, k, id))
  }
}
