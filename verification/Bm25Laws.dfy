// What a score is: the Okapi weight of each query token a chunk holds, summed
// over the query, and how it moves with the text.

module Bm25Laws {
  import opened Collections
  import opened Bm25

  // ----- One token's weight

  /** Where the chunk's tokens are t. */
  function Uses(tokens: seq<Token>, t: Token): (flags: seq<bool>)
    ensures |flags| == |tokens| && forall i :: 0 <= i < |tokens| ==> flags[i] == (tokens[i] == t)
  {
    seq(|tokens|, i requires 0 <= i < |tokens| => tokens[i] == t)
  }

  lemma {:induction false} UsesAreCounted(tokens: seq<Token>, t: Token)
    ensures multiset(tokens)[t] == |Where(Uses(tokens, t))|
  {
    if tokens != [] {
      var n := |tokens| - 1;
      UsesAreCounted(tokens[..n], t);
      assert tokens == tokens[..n] + [tokens[n]];
      assert Uses(tokens, t)[..n] == Uses(tokens[..n], t);
    }
  }

  /** How rare a token is that df of n chunks hold. */
  function Rarity(ln: real -> real, n: nat, df: nat): real {
    ln(1.0 + (n as real - df as real + 0.5) / (df as real + 0.5))
  }

  /** What a chunk's length, against the average, adds to its uses: k1 = 1.2 and b = 0.75 worked out. */
  function Length(dl: nat, avg: real): (r: real)
    requires avg > 0.0
    ensures r > 0.0
  {
    var ratio := dl as real / avg;
    assert ratio >= 0.0;
    0.3 + 0.9 * ratio
  }

  /** p is the weight of a token used x times beside `rest`: p = w * 2.2 * x / (x + rest). */
  predicate Weighs(p: real, w: real, x: real, rest: real) {
    p * (x + rest) == w * (2.2 * x)
  }

  lemma TermIs(ln: real -> real, n: nat, df: nat, chunk: Chunk, t: Token, avg: real)
    requires t in chunk.tokens && avg > 0.0
    ensures Weighs(Term(ln, n, df, chunk, t, avg), Rarity(ln, n, df),
                   |Where(Uses(chunk.tokens, t))| as real, Length(|chunk.tokens|, avg))
  {
    UsesAreCounted(chunk.tokens, t);
    var tf := Tf(chunk, t);
    assert tf > 0;
    var d, ratio := Denominator(tf, |chunk.tokens|, avg), |chunk.tokens| as real / avg;
    assert d == tf as real + (0.3 + 0.9 * ratio);
    DividedBack(Idf(ln, n, df) * (tf as real * 2.2), d);
  }

  lemma DividedBack(a: real, d: real)
    requires d > 0.0
    ensures a / d * d == a
  {
  }

  lemma SmallerProduct(a: real, x: real, y: real)
    requires a > 0.0
    ensures a * x < a * y <==> x < y
  {
  }

  /** x/d and y/e compare as x*e and y*d. */
  lemma Quotients(p: real, d: real, x: real, q: real, e: real, y: real)
    requires d > 0.0 && e > 0.0 && p * d == x && q * e == y && x * e < y * d
    ensures p < q
  {
    assert p * (d * e) == x * e && q * (d * e) == y * d;
    SmallerProduct(d * e, p, q);
  }

  lemma MoreWeighs(p: real, q: real, w: real, x: real, y: real, rest: real)
    requires Weighs(p, w, x, rest) && Weighs(q, w, y, rest) && w > 0.0 && 0.0 < x < y && rest > 0.0
    ensures p < q
  {
    var a, b, d, e := w * (2.2 * x), w * (2.2 * y), x + rest, y + rest;
    MoreOf(w, x, y, rest, a, b, d, e);
    assert p * d == a && q * e == b;
    Quotients(p, d, a, q, e, b);
  }

  lemma MoreOf(w: real, x: real, y: real, rest: real, a: real, b: real, d: real, e: real)
    requires w > 0.0 && 0.0 < x < y && rest > 0.0
    requires a == w * (2.2 * x) && b == w * (2.2 * y) && d == x + rest && e == y + rest
    ensures a * e < b * d
  {
    SmallerProduct(rest, x, y);
    assert x * e < y * d;
    SmallerProduct(2.2 * w, x * e, y * d);
    assert a * e == 2.2 * w * (x * e) && b * d == 2.2 * w * (y * d);
  }

  lemma BesideMoreWeighsLess(p: real, q: real, w: real, x: real, more: real, less: real)
    requires Weighs(p, w, x, more) && Weighs(q, w, x, less) && w > 0.0 && 0.0 < x && 0.0 < less < more
    ensures p < q
  {
    var a := w * (2.2 * x);
    SmallerProduct(a, x + less, x + more);
    Quotients(p, x + more, a, q, x + less, a);
  }

  /** How rare a token is weighs more than zero. */
  lemma RarityIsPositive(tools: Tools, n: nat, df: nat)
    requires tools.Sane() && df <= n
    ensures Rarity(tools.ln, n, df) > 0.0
  {
    assert (n as real - df as real + 0.5) / (df as real + 0.5) > 0.0;
  }

  /** Of two chunks as long as each other, the one that uses a token more often scores higher for it. */
  lemma MoreUsesScoreMore(tools: Tools, n: nat, df: nat, a: Chunk, b: Chunk, t: Token, avg: real)
    requires tools.Sane() && avg > 0.0 && df <= n && t in a.tokens && |a.tokens| == |b.tokens|
    requires |Where(Uses(a.tokens, t))| < |Where(Uses(b.tokens, t))|
    ensures t in b.tokens && Term(tools.ln, n, df, a, t, avg) < Term(tools.ln, n, df, b, t, avg)
  {
    UsesAreCounted(a.tokens, t);
    UsesAreCounted(b.tokens, t);
    TermIs(tools.ln, n, df, a, t, avg);
    TermIs(tools.ln, n, df, b, t, avg);
    RarityIsPositive(tools, n, df);
    MoreWeighs(Term(tools.ln, n, df, a, t, avg), Term(tools.ln, n, df, b, t, avg), Rarity(tools.ln, n, df),
               |Where(Uses(a.tokens, t))| as real, |Where(Uses(b.tokens, t))| as real, Length(|a.tokens|, avg));
  }

  /** Of two chunks that use a token as often, the longer scores lower for it. */
  lemma LongerScoresLess(tools: Tools, n: nat, df: nat, a: Chunk, b: Chunk, t: Token, avg: real)
    requires tools.Sane() && avg > 0.0 && df <= n && t in a.tokens && |b.tokens| < |a.tokens|
    requires |Where(Uses(a.tokens, t))| == |Where(Uses(b.tokens, t))|
    ensures t in b.tokens && Term(tools.ln, n, df, a, t, avg) < Term(tools.ln, n, df, b, t, avg)
  {
    UsesAreCounted(a.tokens, t);
    UsesAreCounted(b.tokens, t);
    TermIs(tools.ln, n, df, a, t, avg);
    TermIs(tools.ln, n, df, b, t, avg);
    RarityIsPositive(tools, n, df);
    ShorterRatio(|b.tokens|, |a.tokens|, avg);
    BesideMoreWeighsLess(Term(tools.ln, n, df, a, t, avg), Term(tools.ln, n, df, b, t, avg), Rarity(tools.ln, n, df),
                         |Where(Uses(a.tokens, t))| as real, Length(|a.tokens|, avg), Length(|b.tokens|, avg));
  }

  /** The fewer chunks hold a token the more it weighs, where the logarithm grows. */
  lemma RarerWeighsMore(ln: real -> real, n: nat, df: nat, more: nat)
    requires (forall x, y :: 0.0 < x < y ==> ln(x) < ln(y)) && df < more <= n
    ensures Rarity(ln, n, more) < Rarity(ln, n, df)
  {
    var a, b := df as real + 0.5, more as real + 0.5;
    var total := n as real + 1.0;
    DividedBack(total - b, b);
    DividedBack(total - a, a);
    SmallerProduct(total, a, b);
    Quotients((total - b) / b, b, total - b, (total - a) / a, a, total - a);
    assert (total - b) / b >= 0.0;
  }

  lemma ShorterRatio(m: nat, n: nat, avg: real)
    requires m < n && avg > 0.0
    ensures m as real / avg < n as real / avg
  {
    DividedBack(m as real, avg);
    DividedBack(n as real, avg);
    SmallerProduct(avg, m as real / avg, n as real / avg);
  }

  // ----- A chunk's score

  /** A query scores as its parts do. */
  lemma {:induction false} ScoresAdd(ln: real -> real, docs: Documents, q: seq<Token>, r: seq<Token>, c: ChunkId)
    requires c in docs
    ensures DirectScore(ln, docs, q + r, c) == DirectScore(ln, docs, q, c) + DirectScore(ln, docs, r, c)
    decreases |r|
  {
    if r == [] {
      assert q + r == q;
    } else {
      var n := |r| - 1;
      ScoresAdd(ln, docs, q, r[..n], c);
      assert q + r == (q + r[..n]) + [r[n]] && r == r[..n] + [r[n]];
      ScoreOneMore(ln, docs, q + r[..n], r[n], c);
      ScoreOneMore(ln, docs, r[..n], r[n], c);
    }
  }

  /** A chunk holds as many of the query's tokens. */
  lemma OneTokenScores(ln: real -> real, docs: Documents, t: Token, c: ChunkId)
    requires c in docs
    ensures DirectScore(ln, docs, [], c) == 0.0
    ensures t !in docs[c].tokens ==> DirectScore(ln, docs, [t], c) == 0.0
    ensures t in docs[c].tokens ==> AvgDl(docs) > 0.0
    ensures t in docs[c].tokens ==>
              DirectScore(ln, docs, [t], c)
              == Term(ln, |docs|, |set d | d in docs && t in docs[d].tokens|, docs[c], t, AvgDl(docs))
  {
    ScoreOneMore(ln, docs, [], t, c);
    assert [] + [t] == [t];
    assert Holders(docs, t) == set d | d in docs && t in docs[d].tokens;
  }

  /** The average, times the number of chunks, is their length in all. */
  lemma AvgIs(docs: Documents)
    requires docs != map[]
    ensures AvgDl(docs) * |docs| as real == TotalLength(docs) as real
  {
    assert |docs| > 0 by {
      var c :| c in docs;
      assert |docs.Keys - {c}| == |docs| - 1;
    }
    DividedBack(TotalLength(docs) as real, |docs| as real);
  }

  /** Removing a document leaves exactly the chunks of the others. */
  lemma RemovedAre(docs: Documents, docId: string, c: ChunkId)
    ensures c in WithoutDoc(docs, docId) <==> c in docs && docs[c].docId != docId
    ensures c in WithoutDoc(docs, docId) ==> WithoutDoc(docs, docId)[c] == docs[c]
    ensures |docs| == |WithoutDoc(docs, docId)| + |OfDoc(docs, docId)|
  {
    assert docs.Keys == WithoutDoc(docs, docId).Keys + OfDoc(docs, docId);
    assert WithoutDoc(docs, docId).Keys !! OfDoc(docs, docId);
  }
}
