// The keyword index of rag/bm25_index.py: the inverted index kept beside the
// chunks, and a search that must score as if every chunk were scored directly.

module Bm25 {
  import opened Collections

  type ChunkId = string
  type Token = string

  /** A stored chunk; `meta` stands for the display fields copied with it. */
  datatype Chunk = Chunk(docId: string, meta: string, text: string, tokens: seq<Token>)

  datatype Saved = Saved(docId: string, meta: string, text: string)

  type Documents = map<ChunkId, Chunk>
  type Postings = map<Token, set<ChunkId>>

  /** _tokenize, and the natural logarithm. */
  datatype Tools = Tools(tokenize: string -> seq<Token>, ln: real -> real) {
    ghost predicate Sane() {
      forall x :: x > 1.0 ==> ln(x) > 0.0
    }
  }

  function TokensOf(c: Chunk): set<Token> {
    set t | t in c.tokens
  }

  // ----- The index and the chunks

  /** Posted under a token exactly when stored with it, and no posting set is empty. */
  ghost predicate Agrees(docs: Documents, inv: Postings) {
    && (forall t :: t in inv ==> inv[t] != {})
    && (forall t, c :: t in inv && c in inv[t] ==> c in docs && t in docs[c].tokens)
    && (forall c, t :: c in docs && t in docs[c].tokens ==> t in inv && c in inv[t])
  }

  function Posted(inv: Postings, t: Token): set<ChunkId> {
    if t in inv then inv[t] else {}
  }

  /** c posted under each of ts as well. */
  function Post(inv: Postings, c: ChunkId, ts: set<Token>): Postings {
    map t | t in inv.Keys + ts :: if t in ts then Posted(inv, t) + {c} else inv[t]
  }

  /** c taken from each of ts, and what is left empty deleted. */
  function Unpost(inv: Postings, c: ChunkId, ts: set<Token>): Postings {
    map t | t in inv && !(t in ts && inv[t] - {c} == {}) :: if t in ts then inv[t] - {c} else inv[t]
  }

  /** add keeps the index in agreement exactly when the id is new, or the tokens
      stored under it before are all among the new ones. */
  lemma AddAgreesIff(docs: Documents, inv: Postings, c: ChunkId, chunk: Chunk)
    requires Agrees(docs, inv)
    ensures Agrees(docs[c := chunk], Post(inv, c, TokensOf(chunk)))
            <==> (c !in docs || TokensOf(docs[c]) <= TokensOf(chunk))
  {
    var docs', inv' := docs[c := chunk], Post(inv, c, TokensOf(chunk));
    if c in docs && !(TokensOf(docs[c]) <= TokensOf(chunk)) {
      var t :| t in TokensOf(docs[c]) && t !in TokensOf(chunk);
      assert t in inv' && c in inv'[t] && t !in docs'[c].tokens;
    } else {
      forall t, d | t in inv' && d in inv'[t]
        ensures d in docs' && t in docs'[d].tokens
      {
        if t in inv && d in inv[t] && d == c {
          assert t in TokensOf(docs[c]);
        }
      }
    }
  }

  lemma UnpostAgrees(docs: Documents, inv: Postings, c: ChunkId)
    requires Agrees(docs, inv) && c in docs
    ensures Agrees(docs - {c}, Unpost(inv, c, TokensOf(docs[c])))
  {
    var inv' := Unpost(inv, c, TokensOf(docs[c]));
    forall t, d | t in inv' && d in inv'[t]
      ensures d in docs - {c} && t in docs[d].tokens
    {
      assert t in inv && d in inv[t];
      assert t in TokensOf(docs[d]);
    }
    forall d, t | d in docs - {c} && t in docs[d].tokens
      ensures t in inv' && d in inv'[t]
    {
      assert t in inv && d in inv[t] - {c};
    }
  }

  /** The index is determined by the chunks. */
  lemma IndexIsDetermined(docs: Documents, a: Postings, b: Postings)
    requires Agrees(docs, a) && Agrees(docs, b)
    ensures a == b
  {
    IndexIsWithin(docs, a, b);
    IndexIsWithin(docs, b, a);
    assert a.Keys == b.Keys;
    assert forall t :: t in a ==> a[t] == b[t];
  }

  lemma IndexIsWithin(docs: Documents, a: Postings, b: Postings)
    requires Agrees(docs, a) && Agrees(docs, b)
    ensures forall t :: t in a ==> t in b && a[t] <= b[t]
  {
    forall t | t in a
      ensures t in b && a[t] <= b[t]
    {
      var c :| c in a[t];
      assert c in docs && t in docs[c].tokens;
      forall d | d in a[t]
        ensures d in b[t]
      {
        assert d in docs && t in docs[d].tokens;
      }
    }
  }

  // ----- Average length

  ghost function TotalLength(docs: Documents): nat
    decreases |docs|
  {
    if docs == map[] then 0
    else
      var c :| c in docs;
      assert docs.Keys - {c} == (docs - {c}).Keys;
      |docs[c].tokens| + TotalLength(docs - {c})
  }

  lemma {:induction false} TotalWithout(docs: Documents, c: ChunkId)
    requires c in docs
    ensures TotalLength(docs) == |docs[c].tokens| + TotalLength(docs - {c})
    decreases |docs|
  {
    var d :| d in docs && TotalLength(docs) == |docs[d].tokens| + TotalLength(docs - {d});
    if d != c {
      assert docs.Keys - {d} == (docs - {d}).Keys;
      assert docs.Keys - {c} == (docs - {c}).Keys;
      TotalWithout(docs - {d}, c);
      TotalWithout(docs - {c}, d);
      assert docs - {d} - {c} == docs - {c} - {d};
    }
  }

  ghost function AvgDl(docs: Documents): real {
    if docs == map[] then 0.0 else TotalLength(docs) as real / |docs| as real
  }

  lemma AvgIsPositive(docs: Documents, c: ChunkId)
    requires c in docs && docs[c].tokens != []
    ensures AvgDl(docs) > 0.0
  {
    TotalWithout(docs, c);
  }

  // ----- Scores

  const K1 := 1.2
  const B := 0.75

  function Tf(c: Chunk, t: Token): nat {
    multiset(c.tokens)[t]
  }

  function Idf(ln: real -> real, n: nat, df: nat): real {
    ln((n as real - df as real + 0.5) / (df as real + 0.5) + 1.0)
  }

  /** Positive whatever the lengths: the search never divides by zero. */
  function Denominator(tf: nat, dl: nat, avg: real): (d: real)
    requires avg > 0.0 && tf > 0
    ensures d > 0.0
  {
    var ratio := dl as real / avg;
    assert ratio >= 0.0;
    tf as real + K1 * (1.0 - B + B * ratio)
  }

  /** What one query token adds to a chunk that holds it. */
  function Term(ln: real -> real, n: nat, df: nat, chunk: Chunk, t: Token, avg: real): real
    requires t in chunk.tokens && avg > 0.0
  {
    var tf := Tf(chunk, t);
    assert tf > 0;
    Idf(ln, n, df) * (tf as real * (K1 + 1.0)) / Denominator(tf, |chunk.tokens|, avg)
  }

  /** How many chunks hold a token, counted over all chunks. */
  ghost function Holders(docs: Documents, t: Token): set<ChunkId> {
    set c | c in docs && t in docs[c].tokens
  }

  /** A chunk's score, computed from the chunks alone, one query token after another. */
  ghost function DirectScore(ln: real -> real, docs: Documents, query: seq<Token>, c: ChunkId): real
    requires c in docs
  {
    if query == [] then 0.0
    else
      var t := query[|query| - 1];
      var p := DirectScore(ln, docs, query[..|query| - 1], c);
      if t !in docs[c].tokens then p
      else
        AvgIsPositive(docs, c);
        p + Term(ln, |docs|, |Holders(docs, t)|, docs[c], t, AvgDl(docs))
  }

  ghost predicate Matches(docs: Documents, query: seq<Token>, c: ChunkId) {
    c in docs && exists t :: t in query && t in docs[c].tokens
  }

  /** The map a search builds: every matching chunk with its direct score. */
  ghost predicate ScoresDirectly(ln: real -> real, docs: Documents, query: seq<Token>, scores: map<ChunkId, real>) {
    && (forall c :: c in scores <==> Matches(docs, query, c))
    && (forall c :: c in scores ==> scores[c] == DirectScore(ln, docs, query, c))
  }

  lemma TermIsPositive(tools: Tools, n: nat, df: nat, chunk: Chunk, t: Token, avg: real)
    requires tools.Sane() && t in chunk.tokens && avg > 0.0 && df <= n
    ensures Term(tools.ln, n, df, chunk, t, avg) > 0.0
  {
    var q := (n as real - df as real + 0.5) / (df as real + 0.5);
    assert q > 0.0;
    var idf := Idf(tools.ln, n, df);
    assert idf > 0.0;
    var num := Tf(chunk, t) as real * (K1 + 1.0);
    assert num > 0.0;
    assert idf * num > 0.0;
  }

  /** A matching chunk scores above zero, any other exactly zero. */
  lemma {:induction false} ScoreIsPositiveIff(tools: Tools, docs: Documents, query: seq<Token>, c: ChunkId)
    requires tools.Sane() && c in docs
    ensures DirectScore(tools.ln, docs, query, c) >= 0.0
    ensures DirectScore(tools.ln, docs, query, c) > 0.0 <==> Matches(docs, query, c)
  {
    if query != [] {
      var init, t := query[..|query| - 1], query[|query| - 1];
      assert query == init + [t];
      ScoreIsPositiveIff(tools, docs, init, c);
      if t in docs[c].tokens {
        AvgIsPositive(docs, c);
        SubsetSize(Holders(docs, t), docs.Keys);
        TermIsPositive(tools, |docs|, |Holders(docs, t)|, docs[c], t, AvgDl(docs));
      }
    }
  }

  // ----- The class

  ghost predicate Ranked(scores: map<ChunkId, real>, results: seq<(ChunkId, real)>) {
    && (forall i :: 0 <= i < |results| ==> results[i].0 in scores && results[i].1 == scores[results[i].0])
    && (forall i, j :: 0 <= i < j < |results| ==> results[i].0 != results[j].0 && results[i].1 >= results[j].1)
  }

  /** The best `k` of the scores: no chunk left out scores above one listed. */
  ghost predicate TopOf(scores: map<ChunkId, real>, k: nat, results: seq<(ChunkId, real)>) {
    && Ranked(scores, results)
    && |results| == (if |scores| < k then |scores| else k)
    && (forall c, i :: c in scores && 0 <= i < |results| && (forall j :: 0 <= j < |results| ==> results[j].0 != c)
          ==> scores[c] <= results[i].1)
  }

  /** Every chunk holds the tokens of its text, and the index and the average are theirs. */
  ghost predicate Consistent(tools: Tools, docs: Documents, inv: Postings, avg: real) {
    && (forall c :: c in docs ==> docs[c].tokens == tools.tokenize(docs[c].text))
    && Agrees(docs, inv) && avg == AvgDl(docs)
  }

  function Stripped(docs: Documents): map<ChunkId, Saved> {
    map c | c in docs :: Saved(docs[c].docId, docs[c].meta, docs[c].text)
  }

  function RestoredChunk(tools: Tools, saved: Saved): Chunk {
    Chunk(saved.docId, saved.meta, saved.text, tools.tokenize(saved.text))
  }

  function RestoredOf(tools: Tools, saved: map<ChunkId, Saved>, ids: set<ChunkId>): Documents
    requires ids <= saved.Keys
  {
    map c | c in ids :: RestoredChunk(tools, saved[c])
  }

  function Restored(tools: Tools, saved: map<ChunkId, Saved>): Documents {
    RestoredOf(tools, saved, saved.Keys)
  }

  lemma RestoredMore(tools: Tools, saved: map<ChunkId, Saved>, left: set<ChunkId>, c: ChunkId)
    requires left <= saved.Keys && c in left
    ensures RestoredOf(tools, saved, saved.Keys - left)[c := RestoredChunk(tools, saved[c])]
            == RestoredOf(tools, saved, saved.Keys - (left - {c}))
    ensures c !in RestoredOf(tools, saved, saved.Keys - left)
  {
  }

  /** Saving and loading gives back the same chunks, and with them the same index and average. */
  lemma ReloadIsTheSame(tools: Tools, docs: Documents, inv: Postings, inv': Postings, avg: real, avg': real)
    requires Consistent(tools, docs, inv, avg)
    requires Consistent(tools, Restored(tools, Stripped(docs)), inv', avg')
    ensures Restored(tools, Stripped(docs)) == docs && inv' == inv && avg' == avg
  {
    var again := Restored(tools, Stripped(docs));
    assert again.Keys == docs.Keys;
    assert forall c :: c in docs ==> again[c] == docs[c];
    assert again == docs;
    IndexIsDetermined(docs, inv, inv');
  }

  function OfDoc(docs: Documents, docId: string): set<ChunkId> {
    set c | c in docs && docs[c].docId == docId
  }

  function WithoutDoc(docs: Documents, docId: string): Documents {
    map c | c in docs && docs[c].docId != docId :: docs[c]
  }

  lemma RestOfDoc(docs: Documents, docId: string)
    ensures docs - OfDoc(docs, docId) == WithoutDoc(docs, docId)
  {
  }

  class BM25Index {
    var documents: Documents
    var inverted: Postings
    var avgDl: real

    ghost predicate Valid(tools: Tools)
      reads this
    {
      Consistent(tools, documents, inverted, avgDl)
    }

    constructor ()
      ensures documents == map[] && inverted == map[] && avgDl == 0.0
    {
      documents, inverted, avgDl := map[], map[], 0.0;
    }

    method RecomputeAvgDl()
      modifies this`avgDl
      ensures avgDl == AvgDl(documents)
    {
      if documents == map[] {
        avgDl := 0.0;
        return;
      }
      var total := 0;
      var rest := documents;
      while rest != map[]
        invariant total + TotalLength(rest) == TotalLength(documents)
        decreases |rest|
      {
        var c :| c in rest;
        TotalWithout(rest, c);
        assert (rest - {c}).Keys == rest.Keys - {c};
        total := total + |rest[c].tokens|;
        rest := rest - {c};
      }
      avgDl := total as real / |documents| as real;
    }

    method PostAll(c: ChunkId, tokens: set<Token>)
      modifies this`inverted
      ensures inverted == Post(old(inverted), c, tokens)
    {
      var left := tokens;
      while left != {}
        invariant left <= tokens
        invariant inverted == Post(old(inverted), c, tokens - left)
      {
        var t :| t in left;
        ghost var was := inverted;
        if t !in inverted {
          inverted := inverted[t := {}];
        }
        inverted := inverted[t := inverted[t] + {c}];
        left := left - {t};
        PostOneMore(old(inverted), c, tokens - left, t);
      }
      assert tokens - {} == tokens;
    }

    method Add(tools: Tools, c: ChunkId, docId: string, meta: string, text: string)
      modifies this
      ensures documents == old(documents)[c := Chunk(docId, meta, text, tools.tokenize(text))]
      ensures inverted == Post(old(inverted), c, TokensOf(documents[c]))
      ensures avgDl == AvgDl(documents)
      ensures old(Valid(tools)) && c !in old(documents) ==> Valid(tools)
    {
      ghost var docs := documents;
      var tokens := tools.tokenize(text);
      documents := documents[c := Chunk(docId, meta, text, tokens)];
      PostAll(c, set t | t in tokens);
      RecomputeAvgDl();
      if Agrees(docs, old(inverted)) {
        AddAgreesIff(docs, old(inverted), c, documents[c]);
      }
    }

    method UnpostAll(c: ChunkId, tokens: set<Token>)
      modifies this`inverted
      ensures inverted == Unpost(old(inverted), c, tokens)
    {
      var left := tokens;
      while left != {}
        invariant left <= tokens
        invariant inverted == Unpost(old(inverted), c, tokens - left)
      {
        var t :| t in left;
        UnpostOneMore(old(inverted), c, tokens - left, t);
        if t in inverted {
          inverted := inverted[t := inverted[t] - {c}];
          if inverted[t] == {} {
            inverted := inverted - {t};
          }
        }
        left := left - {t};
        assert tokens - left == tokens - (left + {t}) + {t};
      }
      assert tokens - {} == tokens;
    }

    /** Every chunk of the document goes, and nothing else. */
    method RemoveByDocId(tools: Tools, docId: string) returns (n: nat)
      requires Valid(tools)
      modifies this
      ensures documents == WithoutDoc(old(documents), docId)
      ensures n == |OfDoc(old(documents), docId)|
      ensures Valid(tools)
    {
      var toRemove := OfDoc(documents, docId);
      ghost var docs := documents;
      RestOfDoc(docs, docId);
      RemoveAll(toRemove);
      if toRemove != {} {
        RecomputeAvgDl();
      } else {
        assert documents == docs;
      }
      n := |toRemove|;
    }

    method RemoveAll(toRemove: set<ChunkId>)
      requires toRemove <= documents.Keys && Agrees(documents, inverted)
      modifies this`documents, this`inverted
      ensures documents == old(documents) - toRemove && Agrees(documents, inverted)
    {
      var left := toRemove;
      ghost var docs := documents;
      while left != {}
        invariant left <= toRemove
        invariant documents == docs - (toRemove - left)
        invariant Agrees(documents, inverted)
      {
        var c :| c in left;
        UnpostAgrees(documents, inverted, c);
        UnpostAll(c, set t | t in documents[c].tokens);
        documents := documents - {c};
        left := left - {c};
        RemovedOneMore(docs, toRemove, left, c);
      }
      assert toRemove - {} == toRemove;
    }

    /** What is written to disk: the chunks without their tokens. */
    function Save(): map<ChunkId, Saved>
      reads this
    {
      Stripped(documents)
    }

    static method Load(tools: Tools, saved: map<ChunkId, Saved>) returns (index: BM25Index)
      ensures fresh(index) && index.Valid(tools)
      ensures index.documents == Restored(tools, saved)
    {
      index := new BM25Index();
      var left := saved.Keys;
      while left != {}
        invariant left <= saved.Keys
        invariant fresh(index)
        invariant Agrees(index.documents, index.inverted)
        invariant index.documents == RestoredOf(tools, saved, saved.Keys - left)
      {
        var c :| c in left;
        var chunk := RestoredChunk(tools, saved[c]);
        RestoredMore(tools, saved, left, c);
        AddAgreesIff(index.documents, index.inverted, c, chunk);
        index.documents := index.documents[c := chunk];
        index.PostAll(c, set t | t in chunk.tokens);
        left := left - {c};
      }
      assert saved.Keys - {} == saved.Keys;
      index.RecomputeAvgDl();
    }

    /** An index saved and loaded again is the same index. */
    static method SaveAndLoad(tools: Tools, index: BM25Index) returns (again: BM25Index)
      requires index.Valid(tools)
      ensures fresh(again) && again.Valid(tools)
      ensures again.documents == index.documents && again.inverted == index.inverted && again.avgDl == index.avgDl
    {
      again := Load(tools, index.Save());
      ReloadIsTheSame(tools, index.documents, index.inverted, again.inverted, index.avgDl, again.avgDl);
    }

    /** The same list as scoring every chunk directly would give. */
    method Search(tools: Tools, query: string, topK: nat) returns (results: seq<(ChunkId, real)>)
      requires Valid(tools) && tools.Sane()
      ensures exists scores ::
                ScoresDirectly(tools.ln, documents, tools.tokenize(query), scores) && TopOf(scores, topK, results)
      ensures forall i :: 0 <= i < |results| ==> results[i].1 > 0.0
    {
      var tokens := tools.tokenize(query);
      var scores := ScoreAll(tools, tokens);
      results := Rank(scores, topK);
      ResultsArePositive(tools, documents, tokens, scores, results);
    }

    method ScoreAll(tools: Tools, tokens: seq<Token>) returns (scores: map<ChunkId, real>)
      requires Valid(tools)
      ensures ScoresDirectly(tools.ln, documents, tokens, scores)
    {
      scores := map[];
      for i := 0 to |tokens|
        invariant ScoresDirectly(tools.ln, documents, tokens[..i], scores)
      {
        assert tokens[..i + 1] == tokens[..i] + [tokens[i]];
        if tokens[i] in inverted {
          scores := AddToken(tools, tokens[..i], tokens[i], scores);
        } else {
          NoHolders(tools.ln, documents, inverted, tokens[..i], tokens[i], scores);
        }
      }
      assert tokens[..|tokens|] == tokens;
    }

    /** One query token's scores, added chunk by chunk over its posting set. */
    method AddToken(
        tools: Tools, before: seq<Token>, t: Token, scores: map<ChunkId, real>)
        returns (r: map<ChunkId, real>)
      requires Valid(tools) && t in inverted
      requires ScoresDirectly(tools.ln, documents, before, scores)
      ensures ScoresDirectly(tools.ln, documents, before + [t], r)
    {
      HoldersArePosted(documents, inverted, t);
      r := scores;
      ghost var holders := inverted[t];
      var left := inverted[t];
      while left != {}
        invariant left <= holders
        invariant PartlyScored(tools.ln, documents, before, t, holders - left, r)
      {
        var c :| c in left;
        r := ScoreChunk(tools, before, t, holders - left, r, c);
        assert holders - (left - {c}) == holders - left + {c};
        left := left - {c};
      }
      assert holders - {} == holders;
      AllScored(tools.ln, documents, before, t, r);
    }

    method ScoreChunk(
        tools: Tools, before: seq<Token>, t: Token, ghost done: set<ChunkId>, r: map<ChunkId, real>, c: ChunkId)
      returns (r': map<ChunkId, real>)
      requires Valid(tools) && t in inverted && c in inverted[t] && c !in done
      requires PartlyScored(tools.ln, documents, before, t, done, r)
      ensures PartlyScored(tools.ln, documents, before, t, done + {c}, r')
    {
      HoldersArePosted(documents, inverted, t);
      AvgIsPositive(documents, c);
      var n, df := |documents|, |inverted[t]|;
      var score := Term(tools.ln, n, df, documents[c], t, avgDl);
      OneMoreScored(tools.ln, documents, before, t, done, r, c);
      r' := r[c := (if c in r then r[c] else 0.0) + score];
    }
  }

  /** Scores of `before`, and of `before + [t]` for the holders already done. */
  ghost predicate PartlyScored(
      ln: real -> real, docs: Documents, before: seq<Token>, t: Token, done: set<ChunkId>, r: map<ChunkId, real>) {
    && done <= Holders(docs, t)
    && (forall c :: c in r <==> Matches(docs, before, c) || c in done)
    && (forall c :: c in r ==> r[c] == DirectScore(ln, docs, if c in done then before + [t] else before, c))
  }

  lemma OneMoreScored(
      ln: real -> real, docs: Documents, before: seq<Token>, t: Token, done: set<ChunkId>, r: map<ChunkId, real>,
      c: ChunkId)
    requires PartlyScored(ln, docs, before, t, done, r) && c in Holders(docs, t) && c !in done && AvgDl(docs) > 0.0
    ensures var score := Term(ln, |docs|, |Holders(docs, t)|, docs[c], t, AvgDl(docs));
            PartlyScored(ln, docs, before, t, done + {c}, r[c := (if c in r then r[c] else 0.0) + score])
  {
    ScoreOneMore(ln, docs, before, t, c);
    if c !in r {
      NoMatchNoScore(ln, docs, before, c);
    }
  }

  lemma AllScored(ln: real -> real, docs: Documents, before: seq<Token>, t: Token, r: map<ChunkId, real>)
    requires PartlyScored(ln, docs, before, t, Holders(docs, t), r)
    ensures ScoresDirectly(ln, docs, before + [t], r)
  {
    forall c
      ensures c in r <==> Matches(docs, before + [t], c)
      ensures c in r ==> r[c] == DirectScore(ln, docs, before + [t], c)
    {
      MatchesOneMore(docs, before, t, c);
      if c in r {
        ScoreOneMore(ln, docs, before, t, c);
      }
    }
  }

  lemma ResultsArePositive(
      tools: Tools, docs: Documents, query: seq<Token>, scores: map<ChunkId, real>, results: seq<(ChunkId, real)>)
    requires tools.Sane() && ScoresDirectly(tools.ln, docs, query, scores) && Ranked(scores, results)
    ensures forall i :: 0 <= i < |results| ==> results[i].1 > 0.0
  {
    forall i | 0 <= i < |results|
      ensures results[i].1 > 0.0
    {
      ScoreIsPositiveIff(tools, docs, query, results[i].0);
    }
  }

  lemma RemovedOneMore(docs: Documents, all: set<ChunkId>, left: set<ChunkId>, c: ChunkId)
    requires c in all && left <= all && c !in left
    ensures docs - (all - left) == docs - (all - (left + {c})) - {c}
  {
  }

  lemma PostOneMore(inv: Postings, c: ChunkId, ts: set<Token>, t: Token)
    requires t in ts
    ensures Post(inv, c, ts) == Post(inv, c, ts - {t})[t := Posted(Post(inv, c, ts - {t}), t) + {c}]
  {
  }

  lemma UnpostOneMore(inv: Postings, c: ChunkId, ts: set<Token>, t: Token)
    requires t !in ts
    ensures var was := Unpost(inv, c, ts);
            Unpost(inv, c, ts + {t}) ==
            if t !in was then was else if was[t] - {c} == {} then was - {t} else was[t := was[t] - {c}]
  {
  }

  lemma HoldersArePosted(docs: Documents, inv: Postings, t: Token)
    requires Agrees(docs, inv)
    ensures Holders(docs, t) == Posted(inv, t)
  {
    forall c
      ensures c in Holders(docs, t) <==> c in Posted(inv, t)
    {
    }
  }

  lemma ScoreOneMore(ln: real -> real, docs: Documents, before: seq<Token>, t: Token, c: ChunkId)
    requires c in docs
    ensures t !in docs[c].tokens ==> DirectScore(ln, docs, before + [t], c) == DirectScore(ln, docs, before, c)
    ensures t in docs[c].tokens ==> AvgDl(docs) > 0.0
    ensures t in docs[c].tokens ==>
              DirectScore(ln, docs, before + [t], c)
              == DirectScore(ln, docs, before, c) + Term(ln, |docs|, |Holders(docs, t)|, docs[c], t, AvgDl(docs))
  {
    assert (before + [t])[..|before|] == before;
    if t in docs[c].tokens {
      AvgIsPositive(docs, c);
    }
  }

  lemma {:induction false} NoMatchNoScore(ln: real -> real, docs: Documents, query: seq<Token>, c: ChunkId)
    requires c in docs && !Matches(docs, query, c)
    ensures DirectScore(ln, docs, query, c) == 0.0
  {
    if query != [] {
      assert query[|query| - 1] in query;
      NoMatchNoScore(ln, docs, query[..|query| - 1], c);
    }
  }

  lemma MatchesOneMore(docs: Documents, before: seq<Token>, t: Token, c: ChunkId)
    ensures Matches(docs, before + [t], c) <==> Matches(docs, before, c) || (c in docs && t in docs[c].tokens)
  {
    if c in docs && t in docs[c].tokens {
      assert t in before + [t];
    }
    if Matches(docs, before, c) {
      var x :| x in before && x in docs[c].tokens;
      assert x in before + [t];
    }
  }

  lemma NoHolders(
      ln: real -> real, docs: Documents, inv: Postings, before: seq<Token>, t: Token, scores: map<ChunkId, real>)
    requires Agrees(docs, inv) && t !in inv && ScoresDirectly(ln, docs, before, scores)
    ensures ScoresDirectly(ln, docs, before + [t], scores)
  {
    forall c
      ensures c in scores <==> Matches(docs, before + [t], c)
      ensures c in scores ==> scores[c] == DirectScore(ln, docs, before + [t], c)
    {
      MatchesOneMore(docs, before, t, c);
      if c in scores {
        ScoreOneMore(ln, docs, before, t, c);
      }
    }
  }

  /** sorted(scores.items(), key=score, reverse=True)[:k], one best after another. */
  method Rank(scores: map<ChunkId, real>, k: nat) returns (results: seq<(ChunkId, real)>)
    ensures TopOf(scores, k, results)
  {
    results := [];
    var left := scores.Keys;
    while left != {} && |results| < k
      invariant left <= scores.Keys && |results| + |left| == |scores| && |results| <= k
      invariant forall c :: c in scores && c !in left ==> exists j :: 0 <= j < |results| && results[j].0 == c
      invariant forall j :: 0 <= j < |results| ==> results[j].0 !in left
      invariant Ranked(scores, results)
      invariant forall c, i :: c in left && 0 <= i < |results| ==> scores[c] <= results[i].1
      decreases left
    {
      var best := Best(scores, left);
      ghost var was := results;
      results := results + [(best, scores[best])];
      assert forall j :: 0 <= j < |was| ==> results[j] == was[j];
      assert results[|was|].0 == best;
      left := left - {best};
    }
  }

  method Best(scores: map<ChunkId, real>, ids: set<ChunkId>) returns (best: ChunkId)
    requires ids != {} && ids <= scores.Keys
    ensures best in ids && forall c :: c in ids ==> scores[c] <= scores[best]
  {
    best :| best in ids;
    var left := ids - {best};
    while left != {}
      invariant left <= ids && best in ids
      invariant forall c :: c in ids - left ==> scores[c] <= scores[best]
    {
      var c :| c in left;
      if scores[c] > scores[best] {
        best := c;
      }
      left := left - {c};
    }
  }

  // ----- What a repeated chunk id does

  /** Adding an id again with other words leaves a posting behind; removing the
      chunk then leaves that posting pointing at nothing. */
  lemma StalePostingDangles()
    ensures var old1 := Chunk("d", "", "alpha", ["alpha"]);
            var new1 := Chunk("d", "", "beta", ["beta"]);
            var inv1 := Post(map[], "c", TokensOf(old1));
            var inv2 := Post(inv1, "c", TokensOf(new1));
            && Agrees(map["c" := old1], inv1) && !Agrees(map["c" := new1], inv2)
            && Posted(Unpost(inv2, "c", TokensOf(new1)), "alpha") == {"c"}
  {
    var old1 := Chunk("d", "", "alpha", ["alpha"]);
    var new1 := Chunk("d", "", "beta", ["beta"]);
    var none: Postings := map[];
    var empty: Documents := map[];
    assert TokensOf(old1) == {"alpha"} && TokensOf(new1) == {"beta"};
    AddAgreesIff(empty, none, "c", old1);
    assert empty["c" := old1] == map["c" := old1];
    var inv1 := Post(none, "c", TokensOf(old1));
    AddAgreesIff(map["c" := old1], inv1, "c", new1);
    assert map["c" := old1]["c" := new1] == map["c" := new1];
    assert "alpha" != "beta";
    assert "alpha" in inv1 && inv1["alpha"] == {"c"};
  }
}
