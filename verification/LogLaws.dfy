// What a prompt recalls of a conversation, told from its stores: which segments
// are injected and which rows replayed.

module LogLaws {
  import opened Collections
  import opened ConversationLog

  // ----- What is stored of one conversation

  /** Which segments are the conversation's. */
  function OwnSegments(segments: seq<Segment>, k: Key): (flags: seq<bool>)
    ensures |flags| == |segments| && forall i :: 0 <= i < |segments| ==> flags[i] == (segments[i].key == k)
  {
    seq(|segments|, i requires 0 <= i < |segments| => segments[i].key == k)
  }

  /** Which rows are the conversation's, and lie past an id. */
  function OwnRowsPast(rows: seq<StoredRow>, k: Key, after: nat): (flags: seq<bool>)
    ensures |flags| == |rows|
    ensures forall i :: 0 <= i < |rows| ==> flags[i] == (rows[i].key == k && rows[i].id > after)
  {
    seq(|rows|, i requires 0 <= i < |rows| => rows[i].key == k && rows[i].id > after)
  }

  /** picked are the entries of all at `at`. */
  predicate PickedAt<T(==)>(all: seq<T>, at: seq<nat>, picked: seq<T>) {
    |picked| == |at| && forall i :: 0 <= i < |at| ==> at[i] < |all| && picked[i] == all[at[i]]
  }

  lemma {:induction false} SegmentsArePicked(segments: seq<Segment>, k: Key)
    ensures PickedAt(segments, Where(OwnSegments(segments, k)), SegmentsOf(segments, k))
  {
    if segments != [] {
      var n := |segments| - 1;
      SegmentsArePicked(segments[..n], k);
      assert OwnSegments(segments, k)[..n] == OwnSegments(segments[..n], k);
    }
  }

  lemma {:induction false} RowsArePicked(rows: seq<StoredRow>, k: Key, after: nat)
    ensures PickedAt(rows, Where(OwnRowsPast(rows, k, after)), RowsAfter(rows, k, after))
  {
    if rows != [] {
      var n := |rows| - 1;
      RowsArePicked(rows[..n], k, after);
      assert OwnRowsPast(rows, k, after)[..n] == OwnRowsPast(rows[..n], k, after);
    }
  }

  // ----- What is recalled

  /** The last n of a list, all of it when it is no longer. */
  ghost predicate Newest<T>(all: seq<T>, n: nat, picked: seq<T>) {
    && |picked| == (if |all| < n then |all| else n)
    && picked == all[|all| - |picked|..]
  }

  lemma LastIsNewest<T>(all: seq<T>, n: nat)
    ensures Newest(all, n, Last(all, n))
  {
  }

  /** Nothing is recalled with the store off or half a key, nor when the rows cannot be read. */
  lemma NothingRecalled(c: Recall, log: Log, k: Key, summariesRead: bool, rowsRead: bool)
    requires !c.storeOn || k.0 == "" || k.1 == "" || !rowsRead
    ensures var prior := PriorConversation(c, log, k, summariesRead, rowsRead);
            && prior.segments == [] && prior.rows == []
            && (prior.degraded <==> c.storeOn && k.0 != "" && k.1 != "")
  {
  }

  /** The latest row any of the segments covers, zero for none. */
  ghost predicate IsLatest(own: seq<Segment>, boundary: nat) {
    && (forall i :: 0 <= i < |own| ==> own[i].toId <= boundary)
    && (boundary > 0 ==> exists i :: 0 <= i < |own| && own[i].toId == boundary)
  }

  lemma MaxIsLatest(own: seq<Segment>)
    ensures IsLatest(own, MaxToId(own))
  {
  }

  /** With compaction on and the summaries read, the newest segments of the
      conversation are injected, and the newest rows past the latest condensed
      one replayed; oldest first, and as many as the settings allow. */
  lemma RecalledPastSegments(c: Recall, log: Log, k: Key)
    returns (own: seq<Segment>, rows: seq<StoredRow>, boundary: nat)
    requires c.storeOn && c.compactionOn && k.0 != "" && k.1 != ""
    ensures PickedAt(log.segments, Where(OwnSegments(log.segments, k)), own)
    ensures IsLatest(own, boundary)
    ensures PickedAt(log.rows, Where(OwnRowsPast(log.rows, k, boundary)), rows)
    ensures var prior := PriorConversation(c, log, k, true, true);
            && Newest(own, c.maxSegments, prior.segments) && Newest(rows, c.maxMessages, prior.rows)
            && !prior.degraded
  {
    own, boundary := SegmentsOf(log.segments, k), LatestToId(log.segments, k);
    rows := RowsAfter(log.rows, k, boundary);
    MaxIsLatest(own);
    SegmentsArePicked(log.segments, k);
    RowsArePicked(log.rows, k, boundary);
    LastIsNewest(own, c.maxSegments);
    LastIsNewest(rows, c.maxMessages);
  }

  /** With compaction off, or the summaries unreadable, no segment is injected
      and the newest rows are replayed whatever was condensed. */
  lemma RecalledWithoutSegments(c: Recall, log: Log, k: Key, summariesRead: bool) returns (rows: seq<StoredRow>)
    requires c.storeOn && k.0 != "" && k.1 != "" && !(c.compactionOn && summariesRead)
    ensures PickedAt(log.rows, Where(OwnRowsPast(log.rows, k, 0)), rows)
    ensures var prior := PriorConversation(c, log, k, summariesRead, true);
            && prior.segments == [] && Newest(rows, c.maxMessages, prior.rows)
            && (prior.degraded <==> c.compactionOn)
  {
    rows := RowsAfter(log.rows, k, 0);
    RowsArePicked(log.rows, k, 0);
    LastIsNewest(rows, c.maxMessages);
  }

  // ----- What the next compaction covers

  /** The rows past the latest condensed one, at most 200 of them, all but the newest `keep`. */
  lemma SelectedAre(log: Log, k: Key, keep: nat) returns (pending: seq<StoredRow>)
    requires k.0 != "" && k.1 != ""
    ensures PickedAt(log.rows, Where(OwnRowsPast(log.rows, k, LatestToId(log.segments, k))), pending)
    ensures var read := if |pending| <= 200 then |pending| else 200;
            Selected(log.rows, log.segments, k, keep) == if read <= keep then [] else pending[..read - keep]
  {
    pending := RowsAfter(log.rows, k, LatestToId(log.segments, k));
    RowsArePicked(log.rows, k, LatestToId(log.segments, k));
    if |pending| > 200 && keep < 200 {
      assert pending[..200][..200 - keep] == pending[..200 - keep];
    }
  }
}
