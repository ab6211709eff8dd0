// The two stores behind compaction: the turns of every conversation, and the
// segments condensed from them (conversation_store.py, conversation_summary.py),
// and over any run of turns and compactions, which rows the segments cover.

module ConversationLog {
  import opened QuoteLines

  /** A conversation: document id and attorney id. */
  type Key = (string, string)

  datatype StoredRow = StoredRow(id: nat, key: Key, role: Role, content: string)

  datatype Segment = Segment(id: nat, key: Key, fromId: nat, toId: nat, content: string)

  const MAX_ROWS_PER_COMPACTION := 200

  // ----- Queries

  predicate Usable(k: Key) {
    k.0 != "" && k.1 != ""
  }

  /** The rows of one conversation past an id, oldest first. */
  function RowsAfter(rows: seq<StoredRow>, k: Key, after: nat): seq<StoredRow> {
    if rows == [] then []
    else
      var p := RowsAfter(rows[..|rows| - 1], k, after);
      var r := rows[|rows| - 1];
      if r.key == k && r.id > after then p + [r] else p
  }

  function SegmentsOf(segments: seq<Segment>, k: Key): seq<Segment> {
    if segments == [] then []
    else
      var p := SegmentsOf(segments[..|segments| - 1], k);
      var s := segments[|segments| - 1];
      if s.key == k then p + [s] else p
  }

  function MaxToId(segments: seq<Segment>): (m: nat)
    ensures segments == [] ==> m == 0
    ensures forall i :: 0 <= i < |segments| ==> segments[i].toId <= m
    ensures segments != [] ==> exists i :: 0 <= i < |segments| && segments[i].toId == m
  {
    if segments == [] then 0
    else
      var m := MaxToId(segments[..|segments| - 1]);
      var t := segments[|segments| - 1].toId;
      if |segments| == 1 || t > m then t else m
  }

  function First<T>(s: seq<T>, n: nat): seq<T> {
    if |s| <= n then s else s[..n]
  }

  function Last<T>(s: seq<T>, n: nat): seq<T> {
    if |s| <= n then s else s[|s| - n..]
  }

  function AllButLast<T>(s: seq<T>, n: nat): seq<T> {
    if |s| <= n then [] else s[..|s| - n]
  }

  function LoadRowsAfter(rows: seq<StoredRow>, k: Key, after: nat, limit: nat): seq<StoredRow> {
    if !Usable(k) then [] else First(RowsAfter(rows, k, after), limit)
  }

  function LoadRecent(rows: seq<StoredRow>, k: Key, max: nat, after: nat): seq<StoredRow> {
    if !Usable(k) then [] else Last(RowsAfter(rows, k, after), max)
  }

  function LoadSegments(segments: seq<Segment>, k: Key, max: nat): seq<Segment> {
    if !Usable(k) then [] else Last(SegmentsOf(segments, k), max)
  }

  function LatestToId(segments: seq<Segment>, k: Key): nat {
    if !Usable(k) then 0 else MaxToId(SegmentsOf(segments, k))
  }

  /** The rows the next compaction would cover: past the last segment, all but the newest `keep`. */
  function Selected(rows: seq<StoredRow>, segments: seq<Segment>, k: Key, keep: nat): seq<StoredRow> {
    AllButLast(LoadRowsAfter(rows, k, LatestToId(segments, k), MAX_ROWS_PER_COMPACTION), keep)
  }

  // ----- Stores

  predicate Increasing(rows: seq<StoredRow>) {
    (forall i :: 0 <= i < |rows| ==> 0 < rows[i].id) && forall i, j :: 0 <= i < j < |rows| ==> rows[i].id < rows[j].id
  }

  predicate Newer(rows: seq<StoredRow>, id: nat) {
    0 < id && forall i :: 0 <= i < |rows| ==> rows[i].id < id
  }

  function Turn(k: Key, user: string, assistant: string, id: nat, id': nat): seq<StoredRow> {
    [StoredRow(id, k, User, user), StoredRow(id', k, Assistant, assistant)]
  }

  class ConversationStore {
    var rows: seq<StoredRow>

    constructor ()
      ensures rows == []
    {
      rows := [];
    }

    /** The two ids come from the table's sequence, which may skip but never goes back. */
    method AppendTurn(k: Key, user: string, assistant: string, id: nat, id': nat)
      requires Increasing(rows) && Newer(rows, id) && id < id'
      modifies this
      ensures rows == old(rows) + Turn(k, user, assistant, id, id') && Increasing(rows)
    {
      rows := rows + [StoredRow(id, k, User, user)];
      rows := rows + [StoredRow(id', k, Assistant, assistant)];
    }
  }

  class SummaryStore {
    var segments: seq<Segment>

    constructor ()
      ensures segments == []
    {
      segments := [];
    }

    method AppendSegment(k: Key, fromId: nat, toId: nat, content: string, id: nat)
      modifies this
      ensures segments == old(segments) + [Segment(id, k, fromId, toId, content)]
    {
      segments := segments + [Segment(id, k, fromId, toId, content)];
    }
  }

  // ----- Runs

  datatype Log = Log(rows: seq<StoredRow>, segments: seq<Segment>)

  /** A turn, or a compaction that wrote a segment; one that refused or failed writes nothing. */
  datatype Event =
    | TookTurn(key: Key, user: string, assistant: string, id: nat, id': nat)
    | Condensed(key: Key, content: string, segmentId: nat)

  predicate Enabled(log: Log, e: Event, keep: nat) {
    match e
    case TookTurn(_, _, _, id, id') => Newer(log.rows, id) && id < id'
    case Condensed(k, _, _) => Selected(log.rows, log.segments, k, keep) != []
  }

  function Apply(log: Log, e: Event, keep: nat): Log
    requires Enabled(log, e, keep)
  {
    match e
    case TookTurn(k, user, assistant, id, id') => Log(log.rows + Turn(k, user, assistant, id, id'), log.segments)
    case Condensed(k, content, segmentId) =>
      var s := Selected(log.rows, log.segments, k, keep);
      Log(log.rows, log.segments + [Segment(segmentId, k, s[0].id, s[|s| - 1].id, content)])
  }

  ghost predicate Leads(log: Log, es: seq<Event>, keep: nat, log': Log)
    decreases |es|
  {
    if es == [] then log == log'
    else Enabled(log, es[0], keep) && Leads(Apply(log, es[0], keep), es[1..], keep, log')
  }

  // ----- Tiling

  function RowsOf(rows: seq<StoredRow>, k: Key): seq<StoredRow> {
    RowsAfter(rows, k, 0)
  }

  /** s covers exactly rs[m..n). */
  predicate Tile(rs: seq<StoredRow>, s: Segment, m: nat, n: nat) {
    m < n <= |rs| && s.fromId == rs[m].id && s.toId == rs[n - 1].id
  }

  /** Segment i covers exactly the rows [cuts[i], cuts[i + 1]): from the first on, with no gap and no overlap. */
  ghost predicate Tiling(rs: seq<StoredRow>, ss: seq<Segment>, cuts: seq<nat>) {
    && |cuts| == |ss| + 1 && cuts[0] == 0 && cuts[|ss|] <= |rs|
    && forall i {:trigger ss[i]} :: 0 <= i < |ss| ==> Tile(rs, ss[i], cuts[i], cuts[i + 1])
  }

  /** The segments of k tile its rows, and leave its newest `keep` rows alone. */
  ghost predicate Tiled(log: Log, k: Key, keep: nat, cuts: seq<nat>) {
    var rs := RowsOf(log.rows, k);
    var ss := SegmentsOf(log.segments, k);
    Tiling(rs, ss, cuts) && |cuts| == |ss| + 1 && (cuts[|ss|] == 0 || cuts[|ss|] + keep <= |rs|)
  }

  ghost predicate IsTiled(log: Log, k: Key, keep: nat) {
    exists cuts :: Tiled(log, k, keep, cuts)
  }

  ghost predicate Sound(log: Log, keep: nat) {
    && Increasing(log.rows)
    && (forall k :: !Usable(k) ==> SegmentsOf(log.segments, k) == [])
    && (forall k :: IsTiled(log, k, keep))
  }

  lemma {:induction false} RowsAfterFacts(rows: seq<StoredRow>, k: Key, after: nat)
    requires Increasing(rows)
    ensures Increasing(RowsAfter(rows, k, after))
    ensures forall r :: r in RowsAfter(rows, k, after) <==> r in rows && r.key == k && r.id > after
  {
    if rows != [] {
      var init := rows[..|rows| - 1];
      RowsAfterFacts(init, k, after);
      assert rows == init + [rows[|rows| - 1]];
      forall r | r in RowsAfter(init, k, after)
        ensures r.id < rows[|rows| - 1].id
      {
        assert r in init;
      }
    }
  }

  lemma {:induction false} RowsAfterAppend(a: seq<StoredRow>, b: seq<StoredRow>, k: Key, after: nat)
    ensures RowsAfter(a + b, k, after) == RowsAfter(a, k, after) + RowsAfter(b, k, after)
  {
    if b == [] {
      assert a + b == a;
    } else {
      var n := |b| - 1;
      assert (a + b)[..|a + b| - 1] == a + b[..n];
      RowsAfterAppend(a, b[..n], k, after);
    }
  }

  /** The rows past the id of row m - 1 are those from m on. */
  lemma {:induction false} RowsPast(rows: seq<StoredRow>, k: Key, m: nat, boundary: nat)
    requires Increasing(rows) && m <= |RowsOf(rows, k)|
    requires boundary == if m == 0 then 0 else RowsOf(rows, k)[m - 1].id
    ensures RowsAfter(rows, k, boundary) == RowsOf(rows, k)[m..]
  {
    if rows != [] {
      var n := |rows| - 1;
      var init := rows[..n];
      if m <= |RowsOf(init, k)| {
        BoundaryIsEarlier(init, k, m, boundary, rows[n].id);
        RowsPast(init, k, m, boundary);
        PastOne(RowsOf(init, k), rows[n], m);
      } else {
        assert boundary == rows[n].id;
        PastAll(init, k, boundary);
      }
    }
  }

  lemma BoundaryIsEarlier(rows: seq<StoredRow>, k: Key, m: nat, boundary: nat, id: nat)
    requires Increasing(rows) && Newer(rows, id) && m <= |RowsOf(rows, k)|
    requires boundary == if m == 0 then 0 else RowsOf(rows, k)[m - 1].id
    ensures boundary < id
  {
    RowsAfterFacts(rows, k, 0);
    assert m > 0 ==> RowsOf(rows, k)[m - 1] in rows;
  }

  lemma PastOne(rs: seq<StoredRow>, r: StoredRow, m: nat)
    requires m <= |rs|
    ensures (rs + [r])[m..] == rs[m..] + [r]
  {
  }

  lemma {:induction false} PastAll(rows: seq<StoredRow>, k: Key, boundary: nat)
    requires forall i :: 0 <= i < |rows| ==> rows[i].id < boundary
    ensures RowsAfter(rows, k, boundary) == []
  {
    if rows != [] {
      PastAll(rows[..|rows| - 1], k, boundary);
    }
  }

  /** Covered rows stay covered when rows are added, and a further segment extends the tiling. */
  lemma TilingGrows(rs: seq<StoredRow>, ss: seq<Segment>, cuts: seq<nat>, rs': seq<StoredRow>)
    requires Tiling(rs, ss, cuts) && rs <= rs'
    ensures Tiling(rs', ss, cuts)
  {
    forall i {:trigger ss[i]} | 0 <= i < |ss|
      ensures Tile(rs', ss[i], cuts[i], cuts[i + 1])
    {
      assert Tile(rs, ss[i], cuts[i], cuts[i + 1]);
    }
  }

  lemma TilingExtends(rs: seq<StoredRow>, ss: seq<Segment>, cuts: seq<nat>, s: Segment, n: nat)
    requires Tiling(rs, ss, cuts) && |cuts| == |ss| + 1 && Tile(rs, s, cuts[|ss|], n)
    ensures Tiling(rs, ss + [s], cuts + [n])
  {
    var ss', cuts' := ss + [s], cuts + [n];
    forall i {:trigger ss'[i]} | 0 <= i < |ss'|
      ensures Tile(rs, ss'[i], cuts'[i], cuts'[i + 1])
    {
      if i < |ss| {
        assert Tile(rs, ss[i], cuts[i], cuts[i + 1]);
      }
    }
  }

  lemma {:induction false} LastTile(rs: seq<StoredRow>, ss: seq<Segment>, cuts: seq<nat>)
    requires Increasing(rs) && Tiling(rs, ss, cuts) && ss != []
    ensures Tile(rs, ss[|ss| - 1], cuts[|ss| - 1], cuts[|ss|])
    ensures forall i :: 0 <= i < |ss| ==> ss[i].toId <= ss[|ss| - 1].toId
  {
    assert Tile(rs, ss[|ss| - 1], cuts[|ss| - 1], cuts[|ss|]);
    if |ss| > 1 {
      var n := |ss| - 1;
      assert Tile(rs, ss[n - 1], cuts[n - 1], cuts[n]);
      TilingPrefix(rs, ss, cuts);
      LastTile(rs, ss[..n], cuts[..n + 1]);
    }
  }

  lemma TilingPrefix(rs: seq<StoredRow>, ss: seq<Segment>, cuts: seq<nat>)
    requires Tiling(rs, ss, cuts) && ss != []
    ensures Tiling(rs, ss[..|ss| - 1], cuts[..|ss|])
  {
    var n := |ss| - 1;
    forall i {:trigger ss[..n][i]} | 0 <= i < n
      ensures Tile(rs, ss[..n][i], cuts[..n + 1][i], cuts[..n + 1][i + 1])
    {
      assert Tile(rs, ss[i], cuts[i], cuts[i + 1]);
    }
    if n > 0 {
      assert Tile(rs, ss[n - 1], cuts[n - 1], cuts[n]);
    }
  }

  /** The boundary is the last condensed row's id. */
  lemma BoundaryIsLastCut(rs: seq<StoredRow>, ss: seq<Segment>, cuts: seq<nat>)
    requires Increasing(rs) && Tiling(rs, ss, cuts)
    ensures |cuts| == |ss| + 1 && cuts[|ss|] <= |rs|
    ensures MaxToId(ss) == if cuts[|ss|] == 0 then 0 else rs[cuts[|ss|] - 1].id
    ensures cuts[|ss|] == 0 <==> ss == []
  {
    if ss != [] {
      LastTile(rs, ss, cuts);
    }
  }

  /** The boundary is the id of row m - 1 of the conversation, or zero. */
  ghost predicate CutAt(log: Log, k: Key, m: nat) {
    var rs := RowsOf(log.rows, k);
    m <= |rs| && LatestToId(log.segments, k) == if m == 0 then 0 else rs[m - 1].id
  }

  function LastCut(log: Log, k: Key, cuts: seq<nat>): nat
    requires |cuts| == |SegmentsOf(log.segments, k)| + 1
  {
    cuts[|SegmentsOf(log.segments, k)|]
  }

  lemma LastCutIsBoundary(log: Log, k: Key, keep: nat, cuts: seq<nat>)
    requires Increasing(log.rows) && Usable(k) && Tiled(log, k, keep, cuts)
    ensures |cuts| == |SegmentsOf(log.segments, k)| + 1 && CutAt(log, k, LastCut(log, k, cuts))
  {
    RowsAfterFacts(log.rows, k, 0);
    BoundaryIsLastCut(RowsOf(log.rows, k), SegmentsOf(log.segments, k), cuts);
  }

  lemma PendingArePast(log: Log, k: Key, m: nat)
    requires Increasing(log.rows) && CutAt(log, k, m)
    ensures RowsAfter(log.rows, k, LatestToId(log.segments, k)) == RowsOf(log.rows, k)[m..]
  {
    RowsPast(log.rows, k, m, LatestToId(log.segments, k));
  }

  lemma AvailableIsThePart(log: Log, k: Key, keep: nat, cuts: seq<nat>)
    requires Increasing(log.rows) && Usable(k) && Tiled(log, k, keep, cuts)
    ensures |cuts| == |SegmentsOf(log.segments, k)| + 1 && CutAt(log, k, LastCut(log, k, cuts))
    ensures RowsAfter(log.rows, k, LatestToId(log.segments, k)) == RowsOf(log.rows, k)[LastCut(log, k, cuts)..]
  {
    LastCutIsBoundary(log, k, keep, cuts);
    PendingArePast(log, k, LastCut(log, k, cuts));
  }

  lemma SliceBefore(rs: seq<StoredRow>, m: nat, keep: nat)
    requires m <= |rs| && AllButLast(First(rs[m..], MAX_ROWS_PER_COMPACTION), keep) != []
    ensures var s := AllButLast(First(rs[m..], MAX_ROWS_PER_COMPACTION), keep);
            m + |s| + keep <= |rs| && s == rs[m..m + |s|]
  {
  }

  /** What the next compaction would cover: the rows from the last cut on, all but the newest. */
  lemma SelectedIsNextPart(log: Log, k: Key, keep: nat, cuts: seq<nat>)
    requires Increasing(log.rows) && Tiled(log, k, keep, cuts) && Selected(log.rows, log.segments, k, keep) != []
    ensures Usable(k)
    ensures var rs := RowsOf(log.rows, k);
            var m := cuts[|SegmentsOf(log.segments, k)|];
            var s := Selected(log.rows, log.segments, k, keep);
            m + |s| + keep <= |rs| && s == rs[m..m + |s|]
  {
    AvailableIsThePart(log, k, keep, cuts);
    SliceBefore(RowsOf(log.rows, k), cuts[|SegmentsOf(log.segments, k)|], keep);
  }

  lemma TurnKeepsTiled(log: Log, e: Event, k: Key, keep: nat, cuts: seq<nat>)
    requires e.TookTurn? && Enabled(log, e, keep) && Tiled(log, k, keep, cuts)
    ensures Tiled(Apply(log, e, keep), k, keep, cuts)
  {
    RowsAfterAppend(log.rows, Turn(e.key, e.user, e.assistant, e.id, e.id'), k, 0);
    TilingGrows(RowsOf(log.rows, k), SegmentsOf(log.segments, k), cuts, RowsOf(Apply(log, e, keep).rows, k));
  }

  lemma CondensedKeepsTiled(log: Log, e: Event, k: Key, keep: nat, cuts: seq<nat>) returns (cuts': seq<nat>)
    requires e.Condensed? && Enabled(log, e, keep) && Increasing(log.rows) && Tiled(log, k, keep, cuts)
    ensures Tiled(Apply(log, e, keep), k, keep, cuts')
  {
    assert Apply(log, e, keep).segments[..|log.segments|] == log.segments;
    if e.key == k {
      cuts' := CondensedPart(log, e, keep, cuts);
    } else {
      cuts' := cuts;
    }
  }

  lemma StepKeepsTiled(log: Log, e: Event, k: Key, keep: nat)
    requires Sound(log, keep) && Enabled(log, e, keep)
    ensures IsTiled(Apply(log, e, keep), k, keep)
  {
    assert IsTiled(log, k, keep);
    var cuts :| Tiled(log, k, keep, cuts);
    if e.TookTurn? {
      TurnKeepsTiled(log, e, k, keep, cuts);
    } else {
      var cuts' := CondensedKeepsTiled(log, e, k, keep, cuts);
    }
  }

  lemma CondensedNeedsKey(log: Log, e: Event, k: Key, keep: nat)
    requires e.Condensed? && Enabled(log, e, keep) && !Usable(k) && SegmentsOf(log.segments, k) == []
    ensures SegmentsOf(Apply(log, e, keep).segments, k) == []
  {
    assert Apply(log, e, keep).segments[..|log.segments|] == log.segments;
  }

  lemma TurnKeepsOrder(rows: seq<StoredRow>, k: Key, user: string, assistant: string, id: nat, id': nat)
    requires Increasing(rows) && Newer(rows, id) && id < id'
    ensures Increasing(rows + Turn(k, user, assistant, id, id'))
  {
  }

  lemma StepKeepsSound(log: Log, e: Event, keep: nat)
    requires Sound(log, keep) && Enabled(log, e, keep)
    ensures Sound(Apply(log, e, keep), keep)
  {
    var log' := Apply(log, e, keep);
    forall k
      ensures IsTiled(log', k, keep)
    {
      StepKeepsTiled(log, e, k, keep);
    }
    if e.Condensed? {
      forall k | !Usable(k)
        ensures SegmentsOf(log'.segments, k) == []
      {
        CondensedNeedsKey(log, e, k, keep);
      }
    } else {
      TurnKeepsOrder(log.rows, e.key, e.user, e.assistant, e.id, e.id');
    }
  }

  /** Over every run of turns and compactions, in every conversation. */
  lemma {:induction false} RunsStaySound(log: Log, es: seq<Event>, keep: nat, log': Log)
    requires Sound(log, keep) && Leads(log, es, keep, log')
    ensures Sound(log', keep)
    ensures log.rows <= log'.rows && log.segments <= log'.segments
    decreases |es|
  {
    if es != [] {
      StepKeepsSound(log, es[0], keep);
      RunsStaySound(Apply(log, es[0], keep), es[1..], keep, log');
    }
  }

  lemma RunsFromEmpty(es: seq<Event>, keep: nat, log: Log)
    requires Leads(Log([], []), es, keep, log)
    ensures Sound(log, keep)
  {
    forall k
      ensures IsTiled(Log([], []), k, keep)
    {
      assert Tiled(Log([], []), k, keep, [0]);
    }
    RunsStaySound(Log([], []), es, keep, log);
  }

  // ----- What is left to condense

  /** compressible_history's message count: past the last segment, outside the newest `keep`. */
  function Compressible(log: Log, k: Key, keep: nat): nat {
    |AllButLast(RowsAfter(log.rows, k, LatestToId(log.segments, k)), keep)|
  }

  /** The pool a compaction leaves is empty exactly when no more than one
      compaction's rows were pending; the rest of a longer backlog stays. */
  lemma PoolAfterCondensing(log: Log, e: Event, keep: nat)
    requires Sound(log, keep) && e.Condensed? && Enabled(log, e, keep)
    ensures var pending := |RowsAfter(log.rows, e.key, LatestToId(log.segments, e.key))|;
            Compressible(Apply(log, e, keep), e.key, keep)
            == if pending <= 200 then 0 else pending - 200
  {
    var k := e.key;
    assert IsTiled(log, k, keep);
    var cuts :| Tiled(log, k, keep, cuts);
    var cuts' := CondensedPart(log, e, keep, cuts);
    PendingCount(log, k, keep, cuts);
    PendingCount(Apply(log, e, keep), k, keep, cuts');
    SelectedCount(log.rows, log.segments, k, keep);
  }

  lemma PendingCount(log: Log, k: Key, keep: nat, cuts: seq<nat>)
    requires Increasing(log.rows) && Usable(k) && Tiled(log, k, keep, cuts)
    ensures |cuts| == |SegmentsOf(log.segments, k)| + 1
    ensures LastCut(log, k, cuts) <= |RowsOf(log.rows, k)|
    ensures |RowsAfter(log.rows, k, LatestToId(log.segments, k))| == |RowsOf(log.rows, k)| - LastCut(log, k, cuts)
  {
    AvailableIsThePart(log, k, keep, cuts);
  }

  lemma SelectedCount(rows: seq<StoredRow>, segments: seq<Segment>, k: Key, keep: nat)
    requires Selected(rows, segments, k, keep) != []
    ensures var pending := |RowsAfter(rows, k, LatestToId(segments, k))|;
            |Selected(rows, segments, k, keep)| + keep
            == if pending <= MAX_ROWS_PER_COMPACTION then pending else MAX_ROWS_PER_COMPACTION
  {
  }

  lemma CondensedPart(log: Log, e: Event, keep: nat, cuts: seq<nat>) returns (cuts': seq<nat>)
    requires e.Condensed? && Enabled(log, e, keep) && Increasing(log.rows) && Tiled(log, e.key, keep, cuts)
    ensures Tiled(Apply(log, e, keep), e.key, keep, cuts')
    ensures var m := cuts[|SegmentsOf(log.segments, e.key)|];
            cuts'[|SegmentsOf(Apply(log, e, keep).segments, e.key)|] ==
                m + |Selected(log.rows, log.segments, e.key, keep)|
  {
    var ss := SegmentsOf(log.segments, e.key);
    var log' := Apply(log, e, keep);
    assert log'.segments[..|log.segments|] == log.segments;
    SelectedIsNextPart(log, e.key, keep, cuts);
    var n := cuts[|ss|] + |Selected(log.rows, log.segments, e.key, keep)|;
    TilingExtends(RowsOf(log.rows, e.key), ss, cuts, log'.segments[|log.segments|], n);
    cuts' := cuts + [n];
  }

  // ----- What the next prompt replays

  /** A segment covers a row: the row's id is in its range. */
  predicate Covers(s: Segment, r: StoredRow) {
    s.key == r.key && s.fromId <= r.id <= s.toId
  }

  /** The settings that decide what a prompt recalls. */
  datatype Recall = Recall(storeOn: bool, compactionOn: bool, maxMessages: nat, maxSegments: nat)

  /** What a prompt recalls: segments injected, rows replayed word for word, and whether a read failed. */
  datatype Prior = Prior(segments: seq<Segment>, rows: seq<StoredRow>, degraded: bool)

  /** Whether the boundary is read: compaction is on and its store answers. */
  predicate ReadsBoundary(c: Recall, summariesRead: bool) {
    c.compactionOn && summariesRead
  }

  /** _load_prior_conversation; either store's read may fail. */
  function PriorConversation(c: Recall, log: Log, k: Key, summariesRead: bool, rowsRead: bool): Prior {
    if !c.storeOn || !Usable(k) then Prior([], [], false)
    else
      var read := ReadsBoundary(c, summariesRead);
      var boundary := if read then LatestToId(log.segments, k) else 0;
      var summaries := if read then LoadSegments(log.segments, k, c.maxSegments) else [];
      if !rowsRead then Prior([], [], true)
      else Prior(summaries, LoadRecent(log.rows, k, c.maxMessages, boundary), c.compactionOn && !summariesRead)
  }

  lemma ReplayedAreLater(rows: seq<StoredRow>, k: Key, max: nat, boundary: nat)
    requires Increasing(rows)
    ensures forall r :: r in LoadRecent(rows, k, max, boundary) ==> r in RowsOf(rows, k) && r.id > boundary
  {
    RowsAfterFacts(rows, k, 0);
    RowsAfterFacts(rows, k, boundary);
    forall r | r in LoadRecent(rows, k, max, boundary)
      ensures r in RowsAfter(rows, k, boundary)
    {
    }
  }

  lemma NoneCoversLater(segments: seq<Segment>, k: Key, r: StoredRow)
    requires Usable(k) && r.id > LatestToId(segments, k)
    ensures forall s :: s in SegmentsOf(segments, k) ==> !Covers(s, r)
  {
  }

  /** Whatever is on and whichever read fails: no row is both replayed word for
      word and covered by a segment injected beside it. */
  lemma ReplayedIsNotInjected(c: Recall, log: Log, k: Key, keep: nat, summariesRead: bool, rowsRead: bool)
    requires Sound(log, keep)
    ensures var prior := PriorConversation(c, log, k, summariesRead, rowsRead);
            forall r, s :: r in prior.rows && s in prior.segments ==> !Covers(s, r)
  {
    var prior := PriorConversation(c, log, k, summariesRead, rowsRead);
    if Usable(k) {
      var boundary := LatestToId(log.segments, k);
      forall r, s | r in prior.rows && s in prior.segments
        ensures !Covers(s, r)
      {
        assert s in LoadSegments(log.segments, k, c.maxSegments);
        ReplayedAreLater(log.rows, k, c.maxMessages, boundary);
        NoneCoversLater(log.segments, k, r);
      }
    }
  }

  /** Some stored segment of the conversation covers the row. */
  ghost predicate IsCovered(log: Log, k: Key, r: StoredRow) {
    exists s :: s in SegmentsOf(log.segments, k) && Covers(s, r)
  }

  /** A row of the conversation is covered exactly when it lies at or below the boundary. */
  lemma CoveredIff(log: Log, k: Key, keep: nat, r: StoredRow)
    requires Sound(log, keep) && Usable(k) && r in RowsOf(log.rows, k)
    ensures IsCovered(log, k, r) <==> r.id <= LatestToId(log.segments, k)
  {
    if r.id <= LatestToId(log.segments, k) {
      assert IsTiled(log, k, keep);
      var cuts :| Tiled(log, k, keep, cuts);
      var i := CoveringSegment(log, k, keep, cuts, r);
      assert SegmentsOf(log.segments, k)[i] in SegmentsOf(log.segments, k);
    } else {
      NoneCoversLater(log.segments, k, r);
    }
  }

  /** A replayed row is covered exactly when it lies at or below the boundary. */
  lemma ReplayedAreCoveredIff(c: Recall, log: Log, k: Key, keep: nat, summariesRead: bool, rowsRead: bool)
    requires Sound(log, keep)
    ensures var rows := PriorConversation(c, log, k, summariesRead, rowsRead).rows;
            forall r :: r in rows ==> (IsCovered(log, k, r) <==> r.id <= LatestToId(log.segments, k))
  {
    var rows := PriorConversation(c, log, k, summariesRead, rowsRead).rows;
    var boundary := if ReadsBoundary(c, summariesRead) then LatestToId(log.segments, k) else 0;
    ReplayedAreLater(log.rows, k, c.maxMessages, boundary);
    forall r | r in rows
      ensures IsCovered(log, k, r) <==> r.id <= LatestToId(log.segments, k)
    {
      CoveredIff(log, k, keep, r);
    }
  }

  /** The newest rows all lie past row m - 1 exactly when no more of them than the rows from m on. */
  lemma NewestArePastIff(rs: seq<StoredRow>, m: nat, max: nat, boundary: nat)
    requires Increasing(rs) && m <= |rs| && boundary == if m == 0 then 0 else rs[m - 1].id
    ensures (forall r :: r in Last(rs, max) ==> r.id > boundary) <==> boundary == 0 || max <= |rs| - m
  {
    var from := |rs| - |Last(rs, max)|;
    TailOf(rs, from);
    if m > from {
      assert rs[m - 1] in rs[from..];
    }
  }

  lemma TailOf(rs: seq<StoredRow>, from: nat)
    requires from <= |rs|
    ensures forall r :: r in rs[from..] <==> exists i :: from <= i < |rs| && rs[i] == r
  {
    forall i | from <= i < |rs|
      ensures rs[i] in rs[from..]
    {
      assert rs[from..][i - from] == rs[i];
    }
  }

  /** Everything a window replays without a boundary lies past it. */
  ghost predicate AllPast(log: Log, k: Key, max: nat) {
    forall r :: r in LoadRecent(log.rows, k, max, 0) ==> r.id > LatestToId(log.segments, k)
  }

  lemma PastACutIff(log: Log, k: Key, max: nat, m: nat)
    requires Increasing(log.rows) && Usable(k) && CutAt(log, k, m)
    ensures var boundary := LatestToId(log.segments, k);
            AllPast(log, k, max) <==> boundary == 0 || max <= |RowsAfter(log.rows, k, boundary)|
  {
    PendingArePast(log, k, m);
    RowsAfterFacts(log.rows, k, 0);
    NewestArePastIff(RowsOf(log.rows, k), m, max, LatestToId(log.segments, k));
  }

  lemma UnboundedArePastIff(log: Log, k: Key, keep: nat, max: nat)
    requires Sound(log, keep) && Usable(k)
    ensures var boundary := LatestToId(log.segments, k);
            AllPast(log, k, max) <==> boundary == 0 || max <= |RowsAfter(log.rows, k, boundary)|
  {
    assert IsTiled(log, k, keep);
    var cuts :| Tiled(log, k, keep, cuts);
    LastCutIsBoundary(log, k, keep, cuts);
    PastACutIff(log, k, max, LastCut(log, k, cuts));
  }

  /** No replayed row is covered by any stored segment exactly when nothing is
      recalled, the boundary was read, nothing was ever condensed, or the window
      holds no more than the rows not yet condensed. */
  lemma ReplayedIsUncoveredIff(c: Recall, log: Log, k: Key, keep: nat, summariesRead: bool, rowsRead: bool)
    requires Sound(log, keep)
    ensures var boundary := LatestToId(log.segments, k);
            (forall r :: r in PriorConversation(c, log, k, summariesRead, rowsRead).rows ==> !IsCovered(log, k, r))
            <==>
            || !c.storeOn || !Usable(k) || !rowsRead || ReadsBoundary(c, summariesRead)
            || boundary == 0 || c.maxMessages <= |RowsAfter(log.rows, k, boundary)|
  {
    var rows := PriorConversation(c, log, k, summariesRead, rowsRead).rows;
    var boundary := LatestToId(log.segments, k);
    ReplayedAreCoveredIff(c, log, k, keep, summariesRead, rowsRead);
    assert (forall r :: r in rows ==> !IsCovered(log, k, r)) <==> (forall r :: r in rows ==> r.id > boundary);
    if ReadsBoundary(c, summariesRead) {
      ReplayedAreLater(log.rows, k, c.maxMessages, boundary);
    } else if c.storeOn && Usable(k) && rowsRead {
      UnboundedArePastIff(log, k, keep, c.maxMessages);
    }
  }

  /** With the boundary read, every row past it is replayed while the window holds them all. */
  lemma NothingIsForgotten(c: Recall, log: Log, k: Key, keep: nat, r: StoredRow)
    requires Sound(log, keep) && c.storeOn && c.compactionOn && Usable(k) && r in RowsOf(log.rows, k)
    requires |RowsAfter(log.rows, k, LatestToId(log.segments, k))| <= c.maxMessages
    ensures r in PriorConversation(c, log, k, true, true).rows <==> !IsCovered(log, k, r)
  {
    RowsAfterFacts(log.rows, k, 0);
    RowsAfterFacts(log.rows, k, LatestToId(log.segments, k));
    CoveredIff(log, k, keep, r);
  }

  /** When the summaries cannot be read, a covered row is replayed again. */
  lemma FailedReadReplaysCovered(c: Recall, log: Log, k: Key, keep: nat, r: StoredRow)
    requires Sound(log, keep) && c.storeOn && Usable(k) && r in RowsOf(log.rows, k) && IsCovered(log, k, r)
    requires |RowsOf(log.rows, k)| <= c.maxMessages
    ensures r in PriorConversation(c, log, k, false, true).rows
    ensures PriorConversation(c, log, k, false, true).segments == []
  {
  }

  lemma {:induction false} OwnRows(rows: seq<StoredRow>, k: Key)
    requires forall i :: 0 <= i < |rows| ==> rows[i].key == k && rows[i].id > 0
    ensures RowsOf(rows, k) == rows
  {
    if rows != [] {
      OwnRows(rows[..|rows| - 1], k);
    }
  }

  /** Two turns of which the first was condensed. */
  function TwoTurns(k: Key): Log {
    Log(Turn(k, "a", "b", 1, 2) + Turn(k, "c", "d", 3, 4), [Segment(1, k, 1, 2, "e")])
  }

  function TwoTurnsTaken(k: Key): seq<Event> {
    [TookTurn(k, "a", "b", 1, 2), TookTurn(k, "c", "d", 3, 4), Condensed(k, "e", 1)]
  }

  lemma FirstTurnIsSelected(k: Key)
    requires Usable(k)
    ensures Selected(TwoTurns(k).rows, [], k, 2) == Turn(k, "a", "b", 1, 2)
  {
    OwnRows(TwoTurns(k).rows, k);
  }

  lemma TwoTurnsHappen(k: Key)
    requires Usable(k)
    ensures Leads(Log([], []), TwoTurnsTaken(k), 2, TwoTurns(k))
  {
    var es := TwoTurnsTaken(k);
    FirstTurnIsSelected(k);
    var both := Log(TwoTurns(k).rows, []);
    assert Leads(both, es[2..], 2, TwoTurns(k));
    var one := Log(Turn(k, "a", "b", 1, 2), []);
    assert Apply(one, es[1], 2) == both;
    assert Leads(one, es[1..], 2, TwoTurns(k)) by {
      assert es[1..][1..] == es[2..];
    }
    assert Apply(Log([], []), es[0], 2) == one;
  }

  /** That happens: after two turns the first of which was condensed, its row is
      replayed beside no summary when the summaries cannot be read. */
  lemma CoveredRowIsReplayed(c: Recall, k: Key, r: StoredRow)
    requires Usable(k) && c.storeOn && c.maxMessages >= 4 && r == StoredRow(1, k, User, "a")
    ensures Leads(Log([], []), TwoTurnsTaken(k), 2, TwoTurns(k)) && IsCovered(TwoTurns(k), k, r)
    ensures r in PriorConversation(c, TwoTurns(k), k, false, true).rows
    ensures PriorConversation(c, TwoTurns(k), k, false, true).segments == []
  {
    var log := TwoTurns(k);
    TwoTurnsHappen(k);
    RunsFromEmpty(TwoTurnsTaken(k), 2, log);
    OwnRows(log.rows, k);
    assert log.rows[0] == r;
    assert SegmentsOf(log.segments, k) == log.segments;
    assert log.segments[0] in log.segments && Covers(log.segments[0], r);
    FailedReadReplaysCovered(c, log, k, 2, r);
  }

  lemma CoveringSegment(log: Log, k: Key, keep: nat, cuts: seq<nat>, r: StoredRow) returns (i: nat)
    requires Increasing(log.rows) && Usable(k) && Tiled(log, k, keep, cuts)
    requires r in RowsOf(log.rows, k) && r.id <= LatestToId(log.segments, k)
    ensures i < |SegmentsOf(log.segments, k)| && Covers(SegmentsOf(log.segments, k)[i], r)
  {
    var rs := RowsOf(log.rows, k);
    var ss := SegmentsOf(log.segments, k);
    RowsAfterFacts(log.rows, k, 0);
    BoundaryIsLastCut(rs, ss, cuts);
    SegmentsOfKey(log.segments, k);
    var n :| 0 <= n < |rs| && rs[n] == r;
    i := TileHolding(rs, ss, cuts, n);
  }

  lemma {:induction false} TileHolding(rs: seq<StoredRow>, ss: seq<Segment>, cuts: seq<nat>, n: nat) returns (i: nat)
    requires Increasing(rs) && Tiling(rs, ss, cuts) && |cuts| == |ss| + 1 && n < cuts[|ss|]
    ensures i < |ss| && n < |rs| && ss[i].fromId <= rs[n].id <= ss[i].toId
  {
    var last := |ss| - 1;
    assert Tile(rs, ss[last], cuts[last], cuts[last + 1]);
    if cuts[last] <= n {
      i := last;
    } else {
      TilingPrefix(rs, ss, cuts);
      i := TileHolding(rs, ss[..last], cuts[..last + 1], n);
    }
  }

  lemma {:induction false} SegmentsOfKey(segments: seq<Segment>, k: Key)
    ensures forall i :: 0 <= i < |SegmentsOf(segments, k)| ==> SegmentsOf(segments, k)[i].key == k
  {
    if segments != [] {
      SegmentsOfKey(segments[..|segments| - 1], k);
    }
  }
}
