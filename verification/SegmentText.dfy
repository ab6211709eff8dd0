// What a compaction reads and writes: the rows the model sees, how long they are,
// and the lines of the segment.

module SegmentText {
  import opened Strings
  import opened Collections
  import opened QuoteLines
  import opened ConversationLog
  import opened Compaction

  // ----- What the model sees

  /** Which rows it sees: the attorney's, and of the assistant's those that say something. */
  function Seen(strip: string -> string, rows: seq<StoredRow>): (flags: seq<bool>)
    ensures |flags| == |rows|
    ensures forall i :: 0 <= i < |rows| ==> flags[i] == (rows[i].role == User || strip(rows[i].content) != "")
  {
    seq(|rows|, i requires 0 <= i < |rows| => rows[i].role == User || strip(rows[i].content) != "")
  }

  /** The attorney's words as they are, the assistant's without structured blocks. */
  ghost predicate SeenAt(strip: string -> string, rows: seq<StoredRow>, at: seq<nat>, seen: seq<Row>) {
    |seen| == |at| && forall i :: 0 <= i < |at| ==>
      && at[i] < |rows| && seen[i].id == rows[at[i]].id && seen[i].role == rows[at[i]].role
      && seen[i].content == if rows[at[i]].role == User then rows[at[i]].content else strip(rows[at[i]].content)
  }

  lemma {:induction false} SanitizedNext(strip: string -> string, rows: seq<StoredRow>)
    requires rows != []
    ensures var n := |rows| - 1;
            var r := rows[n];
            Sanitized(strip, rows) ==
            if r.role == User then Sanitized(strip, rows[..n]) + [Row(r.id, r.role, r.content)]
            else if strip(r.content) == "" then Sanitized(strip, rows[..n])
            else Sanitized(strip, rows[..n]) + [Row(r.id, r.role, strip(r.content))]
  {
    var n := |rows| - 1;
    if n > 0 {
      SanitizedNext(strip, rows[1..]);
      assert rows[1..][..n - 1] == rows[..n][1..];
    } else {
      assert rows[1..] == [];
    }
  }

  lemma {:induction false} SanitizedAre(strip: string -> string, rows: seq<StoredRow>)
    ensures SeenAt(strip, rows, Where(Seen(strip, rows)), Sanitized(strip, rows))
  {
    if rows != [] {
      var n := |rows| - 1;
      SanitizedAre(strip, rows[..n]);
      SanitizedNext(strip, rows);
      SeenNext(strip, rows);
    }
  }

  lemma SeenNext(strip: string -> string, rows: seq<StoredRow>)
    requires rows != []
    ensures var n := |rows| - 1;
            Where(Seen(strip, rows)) == Where(Seen(strip, rows[..n])) +
            if rows[n].role == User || strip(rows[n].content) != "" then [n] else []
  {
    assert Seen(strip, rows)[..|rows| - 1] == Seen(strip, rows[..|rows| - 1]);
  }

  /** All the rows' text, one after another. */
  function Text(rows: seq<Row>): string {
    if rows == [] then "" else rows[0].content + Text(rows[1..])
  }

  lemma {:induction false} CountIsLength(rows: seq<Row>)
    ensures CharCount(rows) == |Text(rows)|
  {
    if rows != [] {
      CountIsLength(rows[1..]);
    }
  }

  // ----- What is written

  /** How a quote is written: its row, who said it, and its text. */
  function Written(q: Quote): string {
    match q.speaker
    case AttorneySaid => "[#" + Decimal(q.rowId) + " attorney] \"" + q.text + "\""
    case AssistantSaid => "[#" + Decimal(q.rowId) + " assistant, said earlier] \"" + q.text + "\""
  }

  function WrittenAll(qs: seq<Quote>): (ls: seq<string>)
    ensures |ls| == |qs| && forall i :: 0 <= i < |qs| ==> ls[i] == Written(qs[i])
  {
    seq(|qs|, i requires 0 <= i < |qs| => Written(qs[i]))
  }

  lemma WrittenIs(q: Quote)
    ensures RenderLine(q) == Written(q)
  {
    var a, b := "[#" + Decimal(q.rowId) + " ", "] \"" + q.text + "\"";
    match q.speaker
    case AttorneySaid =>
      assert RenderLine(q) == a + ("attorney" + b) && Written(q) == a + ("attorney" + b);
    case AssistantSaid =>
      assert RenderLine(q) == a + ("assistant, said earlier" + b) && Written(q) == a + ("assistant, said earlier" + b);
  }

  /** The segment's lines: its heading with the number of messages, two lines on how
      much it weighs, a blank one, a line for each quote, and its end. */
  function SegmentLines(qs: seq<Quote>, count: nat): seq<string> {
    ["--- EARLIER IN THIS CONVERSATION (" + Decimal(count) + " earlier messages, condensed) ---",
     "This is recalled discussion, not a current finding. The attached document,",
     "the prior review and the playbook above take precedence over anything here.", ""]
    + WrittenAll(qs) + ["--- END EARLIER IN THIS CONVERSATION ---"]
  }

  lemma JoinBoth(a: string, b: string, rest: seq<string>)
    requires rest != []
    ensures JoinLines([a + "\n" + b] + rest) == JoinLines([a, b] + rest)
  {
    assert ([a + "\n" + b] + rest)[1..] == rest;
    assert ([a, b] + rest)[1..] == [b] + rest && ([b] + rest)[1..] == rest;
    Regrouped(a, "\n", b, "\n", JoinLines(rest));
  }

  lemma Regrouped(a: string, b: string, c: string, d: string, e: string)
    ensures a + b + c + d + e == a + b + (c + d + e)
  {
  }

  /** The three lines of the header, joined. */
  lemma HeaderIs(a: string, b: string, c: string, rest: seq<string>)
    requires rest != []
    ensures JoinLines([a + "\n" + b + "\n" + c] + rest) == JoinLines([a, b, c] + rest)
  {
    JoinBoth(a + "\n" + b, c, rest);
    JoinBoth(a, b, [c] + rest);
    assert [a + "\n" + b, c] + rest == [a + "\n" + b] + ([c] + rest);
    assert [a, b] + ([c] + rest) == [a, b, c] + rest;
  }

  lemma HeaderSplits(count: nat, first: string)
    requires first == "--- EARLIER IN THIS CONVERSATION (" + Decimal(count) + " earlier messages, condensed) ---"
    ensures SegmentHeader(count) ==
            first + "\n" + "This is recalled discussion, not a current finding. The attached document,"
            + "\n" + "the prior review and the playbook above take precedence over anything here."
  {
    Ends("--- EARLIER IN THIS CONVERSATION (" + Decimal(count), " earlier messages, condensed) ---", "\n");
  }

  lemma Ends(a: string, b: string, c: string)
    ensures a + (b + c) == a + b + c
  {
  }

  lemma SegmentJoins(header: string, a: string, b: string, c: string, body: seq<string>, footer: string)
    requires header == a + "\n" + b + "\n" + c
    ensures JoinLines([header, ""] + body + [footer]) == JoinLines([a, b, c, ""] + body + [footer])
  {
    var rest := [""] + body + [footer];
    HeaderIs(a, b, c, rest);
    assert [header, ""] + body + [footer] == [header] + rest;
    assert [a, b, c] + rest == [a, b, c, ""] + body + [footer];
  }

  lemma LinesAreWritten(qs: seq<Quote>)
    ensures RenderLines(qs) == WrittenAll(qs)
  {
    forall i | 0 <= i < |qs|
      ensures RenderLine(qs[i]) == Written(qs[i])
    {
      WrittenIs(qs[i]);
    }
  }

  /** A segment is those lines, joined. */
  lemma SegmentIs(qs: seq<Quote>, count: nat)
    ensures RenderSegment(qs, count) == JoinLines(SegmentLines(qs, count))
  {
    var ls := SegmentLines(qs, count);
    HeaderSplits(count, ls[0]);
    LinesAreWritten(qs);
    SegmentJoins(SegmentHeader(count), ls[0], ls[1], ls[2], RenderLines(qs), SEGMENT_FOOTER);
    assert [ls[0], ls[1], ls[2], ""] + WrittenAll(qs) + [SEGMENT_FOOTER] == ls;
  }
}
