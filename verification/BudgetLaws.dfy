// What a capped prompt says and what a breakdown shows, figure by figure.

module BudgetLaws {
  import opened Budget

  // ----- The capped prompt

  lemma {:induction false} TotalOfBoth(a: seq<Message>, b: seq<Message>)
    ensures TotalChars(a + b) == TotalChars(a) + TotalChars(b)
    decreases |b|
  {
    if b == [] {
      assert a + b == a;
    } else {
      assert (a + b)[..|a + b| - 1] == a + b[..|b| - 1];
      TotalOfBoth(a, b[..|b| - 1]);
    }
  }

  lemma TotalOfOne(m: Message)
    ensures TotalChars([]) == 0 && TotalChars([m]) == |m.content|
  {
    assert [m][..0] == [];
  }

  /** The number of characters of the document a cut keeps: what is over the
      budget goes, and room for the 41 characters of the marker, as far as there are any. */
  lemma KeptIs(ms: seq<Message>, budget: nat, doc: string)
    requires TotalChars(ms) > budget
    ensures var over := TotalChars(ms) - budget + 41;
            Kept(ms, budget, doc) == if |doc| <= over then 0 else |doc| - over
  {
  }

  /** Over the budget the last message is the document's first characters, marked
      as cut, in its frame, and the request. */
  lemma CappedSays(ms: seq<Message>, budget: nat, doc: string, request: string)
    requires ms != [] && TotalChars(ms) > budget
    ensures var out := Capped(ms, budget, doc, request);
            && |out| == |ms| && out[..|ms| - 1] == ms[..|ms| - 1]
            && out[|ms| - 1].role == ms[|ms| - 1].role
            && out[|ms| - 1].content ==
               "--- ATTACHED DOCUMENT (the source of truth \U{2014} answer from this) ---\n"
               + (doc[..Kept(ms, budget, doc)] + "\n\n[document truncated for context budget]")
               + "\n--- END ATTACHED DOCUMENT ---\n\nUser request: " + request
  {
  }

  // ----- The measured breakdown

  /** Characters in tokens, rounded down. */
  predicate AsTokens(chars: nat, charsPerToken: real, tokens: nat) {
    tokens as real * charsPerToken <= chars as real < (tokens as real + 1.0) * charsPerToken
  }

  /** Characters as a share of the budget, rounded down; zero without a budget. */
  predicate AsShare(chars: nat, budget: nat, pct: nat) {
    if budget == 0 then pct == 0 else pct * budget <= chars * 100 < (pct + 1) * budget
  }

  /** A part shows its size, and that size in tokens and as a share. */
  predicate Shows(p: Part, key: string, chars: nat, budget: nat, charsPerToken: real) {
    && p.key == key && p.chars == chars && AsTokens(chars, charsPerToken, p.tokens) && AsShare(chars, budget, p.pct)
    && (p.compactable <==> key == "history")
  }

  lemma TokensAre(chars: nat, charsPerToken: real)
    requires charsPerToken > 0.0
    ensures AsTokens(chars, charsPerToken, Tokens(chars, charsPerToken))
  {
    var q := chars as real / charsPerToken;
    var t := Tokens(chars, charsPerToken) as real;
    assert t <= q < t + 1.0;
    var chars' := q * charsPerToken;
    assert chars' == chars as real;
    Scaled(t, q, charsPerToken);
    Scaled(q, t + 1.0, charsPerToken);
    assert t * charsPerToken <= chars' < (t + 1.0) * charsPerToken;
  }

  lemma Scaled(a: real, b: real, c: real)
    requires c > 0.0
    ensures a <= b <==> a * c <= b * c
    ensures a < b <==> a * c < b * c
  {
  }

  lemma PartShows(key: string, chars: nat, s: Settings)
    requires s.charsPerToken > 0.0
    ensures Shows(MakePart(key, chars, s), key, chars, s.budget, s.charsPerToken)
  {
    TokensAre(chars, s.charsPerToken);
  }

  /** A breakdown shows each part's own size, in this order, and their total; it
      offers condensing when that is enabled, there is something to condense and
      the total's share is at the warn line, and automatic condensing when besides it is on
      and enough could be condensed. */
  lemma BuildShows(
    s: Settings, document: nat, playbook: nat, msa: nat, review: nat, history: nat, system: nat,
    compressibleMessages: nat, compressibleChars: nat)
    requires s.charsPerToken > 0.0
    ensures var b :=
              Build(s, document, playbook, msa, review, history, system, compressibleMessages, compressibleChars);
            var total := document + playbook + msa + review + history + system;
            && |b.parts| == 6
            && Shows(b.parts[0], "document", document, s.budget, s.charsPerToken)
            && Shows(b.parts[1], "playbook", playbook, s.budget, s.charsPerToken)
            && Shows(b.parts[2], "msa", msa, s.budget, s.charsPerToken)
            && Shows(b.parts[3], "review", review, s.budget, s.charsPerToken)
            && Shows(b.parts[4], "history", history, s.budget, s.charsPerToken)
            && Shows(b.parts[5], "system", system, s.budget, s.charsPerToken)
            && b.totalChars == total && AsTokens(total, s.charsPerToken, b.totalTokens)
            && AsShare(total, s.budget, b.pct) && b.compressibleMessages == compressibleMessages
            && b.budgetChars == s.budget && AsTokens(s.budget, s.charsPerToken, b.budgetTokens)
            && b.charsPerToken == s.charsPerToken && b.warnPct == s.warnPct
            && (b.canCompact <==> s.enabled && compressibleMessages > 0 && b.pct >= s.warnPct)
            && (b.autoCompact <==> b.canCompact && s.auto && compressibleChars >= s.autoMinChars)
  {
    PartShows("document", document, s);
    PartShows("playbook", playbook, s);
    PartShows("msa", msa, s);
    PartShows("review", review, s);
    PartShows("history", history, s);
    PartShows("system", system, s);
    TokensAre(document + playbook + msa + review + history + system, s.charsPerToken);
    TokensAre(s.budget, s.charsPerToken);
  }

  // ----- The pane's updates

  /** The part, with its size set anew and its figures measured again. */
  predicate Remeasured(b: Breakdown, was: Part, now: Part, chars: nat) {
    && now.key == was.key && now.compactable == was.compactable && now.chars == chars
    && AsTokens(chars, b.charsPerToken, now.tokens) && AsShare(chars, b.budgetChars, now.pct)
  }

  lemma ResizedIs(b: Breakdown, p: Part, chars: nat)
    requires b.charsPerToken > 0.0
    ensures Remeasured(b, p, Resized(b, p, chars), chars)
  {
    TokensAre(chars, b.charsPerToken);
  }

  /** The totals of a breakdown are those of its parts. */
  predicate Totalled(b: Breakdown) {
    && b.totalChars == SumParts(b.parts)
    && AsTokens(b.totalChars, b.charsPerToken, b.totalTokens) && AsShare(b.totalChars, b.budgetChars, b.pct)
  }

  lemma TotalsAre(b: Breakdown, parts: seq<Part>)
    requires b.charsPerToken > 0.0
    ensures Totalled(WithParts(b, parts))
  {
    TokensAre(SumParts(parts), b.charsPerToken);
  }

  /** Reading the document anew sets its size and no other part's; the offers
      stand exactly when pressure and something to condense, or the automatic one, still do. */
  lemma LiveDocumentShows(b: Breakdown, chars: nat)
    requires b.charsPerToken > 0.0
    ensures var out := WithLiveDocument(b, chars);
            && |out.parts| == |b.parts| && Totalled(out)
            && (forall i :: 0 <= i < |b.parts| ==>
                  if b.parts[i].key == "document" then Remeasured(b, b.parts[i], out.parts[i], chars)
                  else out.parts[i] == b.parts[i])
            && (out.canCompact <==> b.compressibleMessages > 0 && out.pct >= b.warnPct)
            && (out.autoCompact <==> b.autoCompact && out.pct >= b.warnPct)
            && out.warnPct == b.warnPct && out.compressibleMessages == b.compressibleMessages
  {
    MapAt(b.parts, Rewritten(b, chars));
    TotalsAre(b, MapParts(b.parts, Rewritten(b, chars)));
    forall i | 0 <= i < |b.parts|
      ensures b.parts[i].key == "document" ==>
                Remeasured(b, b.parts[i], MapParts(b.parts, Rewritten(b, chars))[i], chars)
    {
      ResizedIs(b, b.parts[i], chars);
    }
  }

  /** Reclaiming takes that many characters off the parts that can be condensed, as
      far as they go, leaves the others, and nothing to condense or to offer. */
  lemma ReclaimedShows(b: Breakdown, chars: int)
    requires b.charsPerToken > 0.0
    ensures chars <= 0 ==> WithReclaimedHistory(b, chars) == b
    ensures chars > 0 ==>
              var out := WithReclaimedHistory(b, chars);
              && |out.parts| == |b.parts| && Totalled(out)
              && (forall i :: 0 <= i < |b.parts| ==>
                    if b.parts[i].compactable
                    then Remeasured(b, b.parts[i], out.parts[i], LessOf(b.parts[i].chars, chars))
                    else out.parts[i] == b.parts[i])
              && out.compressibleMessages == 0 && !out.canCompact && !out.autoCompact && out.warnPct == b.warnPct
  {
    if chars > 0 {
      MapAt(b.parts, Reclaimed(b, chars));
      TotalsAre(b, MapParts(b.parts, Reclaimed(b, chars)));
      forall i | 0 <= i < |b.parts|
        ensures b.parts[i].compactable ==>
                  Remeasured(b, b.parts[i], MapParts(b.parts, Reclaimed(b, chars))[i], LessOf(b.parts[i].chars, chars))
      {
        ResizedIs(b, b.parts[i], Monus(b.parts[i].chars, chars));
      }
    }
  }

  function LessOf(chars: nat, less: nat): nat {
    if chars <= less then 0 else chars - less
  }
}
