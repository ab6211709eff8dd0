// The context budget: what is cut when a chat turn is too long (_cap_chat_context
// in skills/legal_research/context.py), the measured breakdown the server sends
// (build_context_breakdown) and the pane's updates of it (contextGauge.ts).

module Budget {
  import opened Wrappers

  // ----- Capping the chat context

  datatype Message = Message(role: string, content: string)

  /** What was lost. */
  datatype Cut = Cut(docChars: nat, keptChars: nat, keptPct: nat)

  const Marker := "\n\n[document truncated for context budget]"

  const Opening := "--- ATTACHED DOCUMENT (the source of truth — answer from this) ---\n"

  const Closing := "\n--- END ATTACHED DOCUMENT ---\n\nUser request: "

  function UserMessage(doc: string, request: string): string {
    Opening + doc + Closing + request
  }

  function TotalChars(ms: seq<Message>): nat {
    if ms == [] then 0 else TotalChars(ms[..|ms| - 1]) + |ms[|ms| - 1].content|
  }

  function Monus(a: nat, b: nat): nat {
    if a < b then 0 else a - b
  }

  /** How much of the document a cut keeps. */
  function Kept(ms: seq<Message>, budget: nat, doc: string): nat {
    Monus(|doc|, Monus(TotalChars(ms), budget) + |Marker|)
  }

  function Capped(ms: seq<Message>, budget: nat, doc: string, request: string): seq<Message> {
    if TotalChars(ms) <= budget then ms
    else
      var last := |ms| - 1;
      ms[last := ms[last].(content := UserMessage(doc[..Kept(ms, budget, doc)] + Marker, request))]
  }

  method CapChatContext(messages: array<Message>, budget: nat, doc: string, request: string) returns (cut: Option<Cut>)
    modifies messages
    ensures messages[..] == Capped(old(messages[..]), budget, doc, request)
    ensures cut == None <==> TotalChars(old(messages[..])) <= budget
    ensures cut.Some? ==> cut.value.docChars == |doc| && cut.value.keptChars == Kept(old(messages[..]), budget, doc)
    ensures cut.Some? ==> cut.value.keptPct * |doc| <= cut.value.keptChars * 100
    ensures cut.Some? && doc != "" ==> cut.value.keptChars * 100 < (cut.value.keptPct + 1) * |doc|
    ensures cut.Some? && doc == "" ==> cut.value.keptPct == 0
  {
    var total := 0;
    for i := 0 to messages.Length
      invariant total == TotalChars(messages[..i])
    {
      assert messages[..i + 1][..i] == messages[..i];
      total := total + |messages[i].content|;
    }
    assert messages[..messages.Length] == messages[..];
    if total <= budget {
      return None;
    }
    var overflow := total - budget;
    var keep := Monus(|doc|, overflow + |Marker|);
    var last := messages.Length - 1;
    messages[last] := messages[last].(content := UserMessage(doc[..keep] + Marker, request));
    var pct := if doc == "" then 0 else Share(keep, |doc|);
    cut := Some(Cut(|doc|, keep, pct));
  }

  lemma TotalOfUpdate(ms: seq<Message>, m: Message)
    requires ms != []
    ensures TotalChars(ms[|ms| - 1 := m]) == TotalChars(ms) - |ms[|ms| - 1].content| + |m.content|
  {
    assert ms[|ms| - 1 := m][..|ms| - 1] == ms[..|ms| - 1];
  }

  /** The trailing message as assembled: the whole document, the request, and any notes after it. */
  predicate Assembled(ms: seq<Message>, doc: string, request: string, notes: string) {
    ms != [] && ms[|ms| - 1].content == UserMessage(doc, request) + notes
  }

  /** Exactly when a capped prompt fits the budget, and what it then totals. */
  lemma CappedFitsIff(ms: seq<Message>, budget: nat, doc: string, request: string, notes: string)
    requires Assembled(ms, doc, request, notes) && TotalChars(ms) > budget
    ensures TotalChars(Capped(ms, budget, doc, request)) <= budget
            <==> |doc| + |notes| >= TotalChars(ms) - budget + |Marker|
    ensures |doc| >= TotalChars(ms) - budget + |Marker| ==>
              TotalChars(Capped(ms, budget, doc, request)) == budget - |notes|
  {
    var last := |ms| - 1;
    var keep := Kept(ms, budget, doc);
    TotalOfUpdate(ms, ms[last].(content := UserMessage(doc[..keep] + Marker, request)));
  }

  /** Without notes, and with document enough to cut, the prompt lands on the budget exactly. */
  lemma CappedLandsOnBudget(ms: seq<Message>, budget: nat, doc: string, request: string)
    requires Assembled(ms, doc, request, "") && TotalChars(ms) > budget
    requires |doc| >= TotalChars(ms) - budget + |Marker|
    ensures TotalChars(Capped(ms, budget, doc, request)) == budget
  {
    CappedFitsIff(ms, budget, doc, request, "");
  }

  /** The last message carries the request and a marked prefix of the document, with nothing after. */
  ghost predicate PrefixKept(ms: seq<Message>, doc: string, request: string) {
    exists kept: string :: kept <= doc && Assembled(ms, kept + Marker, request, "")
  }

  /** Only the document portion of the last message changes, and a document prefix is kept; notes go. */
  lemma CappedKeepsTheRest(ms: seq<Message>, budget: nat, doc: string, request: string, notes: string)
    requires Assembled(ms, doc, request, notes)
    ensures |Capped(ms, budget, doc, request)| == |ms|
    ensures Capped(ms, budget, doc, request)[..|ms| - 1] == ms[..|ms| - 1]
    ensures Capped(ms, budget, doc, request)[|ms| - 1].role == ms[|ms| - 1].role
    ensures TotalChars(ms) > budget ==> PrefixKept(Capped(ms, budget, doc, request), doc, request)
  {
    if TotalChars(ms) > budget {
      var kept := doc[..Kept(ms, budget, doc)];
      assert UserMessage(kept + Marker, request) + "" == UserMessage(kept + Marker, request);
      assert kept <= doc && Assembled(Capped(ms, budget, doc, request), kept + Marker, request, "");
    }
  }

  /** Capping again changes nothing exactly when the first cut fitted, or the
      second keeps no more of the document than the first, which kept none. */
  lemma CappedTwiceIff(ms: seq<Message>, budget: nat, doc: string, request: string, notes: string)
    requires Assembled(ms, doc, request, notes) && TotalChars(ms) > budget
    ensures var overflow := TotalChars(ms) - budget;
            Capped(Capped(ms, budget, doc, request), budget, doc, request) == Capped(ms, budget, doc, request)
            <==> |doc| + |notes| >= overflow + |Marker| || 2 * |doc| + |notes| <= overflow + 2 * |Marker|
  {
    var once := Capped(ms, budget, doc, request);
    var last := |ms| - 1;
    var keep := Kept(ms, budget, doc);
    TotalOfUpdate(ms, ms[last].(content := UserMessage(doc[..keep] + Marker, request)));
    CappedFitsIff(ms, budget, doc, request, notes);
    if TotalChars(once) > budget {
      var again := Kept(once, budget, doc);
      assert keep == 0 && again == Monus(2 * |doc| + |notes|, TotalChars(ms) - budget + 2 * |Marker|);
      var twice := Capped(once, budget, doc, request);
      assert |twice[last].content| == |once[last].content| + again;
      assert again == 0 ==> doc[..again] == doc[..keep];
      assert again == 0 ==> twice == once;
    }
  }

  // ----- The breakdown

  datatype Part = Part(key: string, chars: nat, tokens: nat, pct: nat, compactable: bool)

  datatype Breakdown = Breakdown(budgetChars: nat, budgetTokens: nat, charsPerToken: real,
                                 totalChars: nat, totalTokens: nat, pct: nat, warnPct: nat,
                                 canCompact: bool, autoCompact: bool, compressibleMessages: nat,
                                 parts: seq<Part>)

  datatype Settings = Settings(
    budget: nat, charsPerToken: real, enabled: bool, auto: bool, warnPct: nat, autoMinChars: nat)

  /** Rounded-down percentage of a positive whole. */
  function Share(chars: nat, whole: nat): (pct: nat)
    requires whole > 0
    ensures pct * whole <= chars * 100 < (pct + 1) * whole
  {
    chars * 100 / whole
  }

  function Percent(chars: nat, budget: nat): nat {
    if budget == 0 then 0 else Share(chars, budget)
  }

  function Tokens(chars: nat, charsPerToken: real): nat
    requires charsPerToken > 0.0
  {
    (chars as real / charsPerToken).Floor
  }

  function MakePart(key: string, chars: nat, s: Settings): Part
    requires s.charsPerToken > 0.0
  {
    Part(key, chars, Tokens(chars, s.charsPerToken), Percent(chars, s.budget), key == "history")
  }

  function Build(s: Settings, document: nat, playbook: nat, msa: nat, review: nat, history: nat, system: nat,
                 compressibleMessages: nat, compressibleChars: nat): Breakdown
    requires s.charsPerToken > 0.0
  {
    var total := document + playbook + msa + review + history + system;
    var pct := Percent(total, s.budget);
    var canCompact := s.enabled && compressibleMessages > 0 && pct >= s.warnPct;
    Breakdown(s.budget, Tokens(s.budget, s.charsPerToken), s.charsPerToken,
              total, Tokens(total, s.charsPerToken), pct, s.warnPct,
              canCompact, canCompact && s.auto && compressibleChars >= s.autoMinChars, compressibleMessages,
              [MakePart("document", document, s), MakePart("playbook", playbook, s), MakePart("msa", msa, s),
               MakePart("review", review, s), MakePart("history", history, s), MakePart("system", system, s)])
  }

  function SumParts(parts: seq<Part>): nat {
    if parts == [] then 0 else parts[0].chars + SumParts(parts[1..])
  }

  /** The part with its size replaced and its shares recomputed. */
  function Resized(b: Breakdown, p: Part, chars: nat): Part
    requires b.charsPerToken > 0.0
  {
    p.(chars := chars, tokens := Tokens(chars, b.charsPerToken), pct := Percent(chars, b.budgetChars))
  }

  function WithParts(b: Breakdown, parts: seq<Part>): Breakdown
    requires b.charsPerToken > 0.0
  {
    var total := SumParts(parts);
    b.(parts := parts, totalChars := total, totalTokens := Tokens(total, b.charsPerToken),
       pct := Percent(total, b.budgetChars))
  }

  function MapParts(parts: seq<Part>, f: Part -> Part): seq<Part> {
    if parts == [] then [] else [f(parts[0])] + MapParts(parts[1..], f)
  }

  /** What must come back for the prompt to be down to the warn line. */
  function ReclaimTarget(b: Breakdown): nat {
    Monus(b.totalChars, b.budgetChars * b.warnPct / 100)
  }

  function Reclaimed(b: Breakdown, chars: nat): Part -> Part
    requires b.charsPerToken > 0.0
  {
    (p: Part) => if p.compactable then Resized(b, p, Monus(p.chars, chars)) else p
  }

  function WithReclaimedHistory(b: Breakdown, chars: int): Breakdown
    requires b.charsPerToken > 0.0
  {
    if chars <= 0 then b
    else
      WithParts(b, MapParts(b.parts, Reclaimed(b, chars)))
      .(compressibleMessages := 0, canCompact := false, autoCompact := false)
  }

  function Rewritten(b: Breakdown, chars: nat): Part -> Part
    requires b.charsPerToken > 0.0
  {
    (p: Part) => if p.key == "document" then Resized(b, p, chars) else p
  }

  function WithLiveDocument(b: Breakdown, chars: nat): Breakdown
    requires b.charsPerToken > 0.0
  {
    var c := WithParts(b, MapParts(b.parts, Rewritten(b, chars)));
    c.(canCompact := b.compressibleMessages > 0 && c.pct >= b.warnPct,
       autoCompact := b.autoCompact && c.pct >= b.warnPct)
  }

  // ----- What every update keeps

  predicate IsWarning(b: Breakdown) {
    b.pct >= b.warnPct
  }

  /** The totals and shares are those of the parts, and both offers are backed by pressure and by history to
      condense. */
  ghost predicate Consistent(b: Breakdown) {
    && b.charsPerToken > 0.0
    && b.totalChars == SumParts(b.parts)
    && b.totalTokens == Tokens(b.totalChars, b.charsPerToken)
    && b.pct == Percent(b.totalChars, b.budgetChars)
    && PartsMeasured(b, b.parts)
    && (b.canCompact ==> b.compressibleMessages > 0 && IsWarning(b))
    && (b.autoCompact ==> b.canCompact)
  }

  ghost predicate PartsMeasured(b: Breakdown, parts: seq<Part>)
    requires b.charsPerToken > 0.0
  {
    forall i :: 0 <= i < |parts| ==> Measured(b, parts[i])
  }

  ghost predicate Measured(b: Breakdown, p: Part)
    requires b.charsPerToken > 0.0
  {
    p == Resized(b, p, p.chars) && (p.compactable <==> p.key == "history")
  }

  lemma {:induction false} MapAt(parts: seq<Part>, f: Part -> Part)
    ensures |MapParts(parts, f)| == |parts|
    ensures forall i :: 0 <= i < |parts| ==> MapParts(parts, f)[i] == f(parts[i])
  {
    if parts != [] {
      MapAt(parts[1..], f);
    }
  }

  lemma SumOfCons(p: Part, parts: seq<Part>)
    ensures SumParts([p] + parts) == p.chars + SumParts(parts)
  {
    assert ([p] + parts)[1..] == parts;
  }

  lemma SumOfSix(a: Part, b: Part, c: Part, d: Part, e: Part, f: Part)
    ensures SumParts([a, b, c, d, e, f]) == a.chars + b.chars + c.chars + d.chars + e.chars + f.chars
  {
    var cs := [c] + ([d] + ([e] + ([f] + [])));
    SumOfCons(f, []);
    SumOfCons(e, [f] + []);
    SumOfCons(d, [e] + ([f] + []));
    SumOfCons(c, [d] + ([e] + ([f] + [])));
    SumOfCons(b, cs);
    SumOfCons(a, [b] + cs);
    assert [a, b, c, d, e, f] == [a] + ([b] + cs);
  }

  lemma BuildIsConsistent(s: Settings, document: nat, playbook: nat, msa: nat, review: nat, history: nat, system: nat,
                          compressibleMessages: nat, compressibleChars: nat)
    requires s.charsPerToken > 0.0
    ensures var b :=
              Build(s, document, playbook, msa, review, history, system, compressibleMessages, compressibleChars);
            Consistent(b) && OnlyHistory(b.parts, 4)
  {
    var b := Build(s, document, playbook, msa, review, history, system, compressibleMessages, compressibleChars);
    var p := b.parts;
    SumOfSix(p[0], p[1], p[2], p[3], p[4], p[5]);
    assert p == [p[0], p[1], p[2], p[3], p[4], p[5]];
  }

  /** The pane's updates of one measured breakdown. */
  datatype Update = Reclaim(chars: int) | Live(docChars: nat)

  function Updated(b: Breakdown, u: Update): (c: Breakdown)
    requires b.charsPerToken > 0.0
    ensures c.charsPerToken == b.charsPerToken && c.budgetChars == b.budgetChars && c.warnPct == b.warnPct
  {
    match u
    case Reclaim(n) => WithReclaimedHistory(b, n)
    case Live(n) => WithLiveDocument(b, n)
  }

  function UpdatedBy(b: Breakdown, us: seq<Update>): (c: Breakdown)
    requires b.charsPerToken > 0.0
    ensures c.charsPerToken == b.charsPerToken && c.budgetChars == b.budgetChars && c.warnPct == b.warnPct
  {
    if us == [] then b else Updated(UpdatedBy(b, us[..|us| - 1]), us[|us| - 1])
  }

  lemma UpdateKeepsConsistent(b: Breakdown, u: Update)
    requires Consistent(b)
    ensures Consistent(Updated(b, u))
    ensures Updated(b, u).autoCompact <==> b.autoCompact && !Reclaims(u) && IsWarning(Updated(b, u))
  {
    match u
    case Reclaim(n) =>
      if n > 0 {
        MapAt(b.parts, Reclaimed(b, n));
      }
    case Live(n) =>
      MapAt(b.parts, Rewritten(b, n));
  }

  predicate Reclaims(u: Update) {
    u.Reclaim? && u.chars > 0
  }

  /** Update i reclaims nothing and leaves the pressure at the warn line or above. */
  ghost predicate NoRelief(b: Breakdown, us: seq<Update>, i: nat)
    requires b.charsPerToken > 0.0 && i < |us|
  {
    !Reclaims(us[i]) && IsWarning(UpdatedBy(b, us[..i + 1]))
  }

  /** Over any chain of updates the totals stay those of the parts, and automatic
      condensing is on exactly when it was on at first and no update relieved the
      pressure: it is never turned on. */
  lemma {:induction false} AutoNeverTurnsOn(b: Breakdown, us: seq<Update>)
    requires Consistent(b)
    ensures Consistent(UpdatedBy(b, us))
    ensures UpdatedBy(b, us).autoCompact <==> b.autoCompact && forall i :: 0 <= i < |us| ==> NoRelief(b, us, i)
  {
    if us != [] {
      var n := |us| - 1;
      AutoNeverTurnsOn(b, us[..n]);
      UpdateKeepsConsistent(UpdatedBy(b, us[..n]), us[n]);
      assert us[..n + 1] == us;
      forall i | 0 <= i < n
        ensures NoRelief(b, us, i) <==> NoRelief(b, us[..n], i)
      {
        assert us[..n][..i + 1] == us[..i + 1];
      }
      assert NoRelief(b, us, n) <==> !Reclaims(us[n]) && IsWarning(UpdatedBy(b, us));
    }
  }

  /** Once history has been reclaimed no later update offers condensing again. */
  lemma {:induction false} NoOfferAfterReclaim(b: Breakdown, us: seq<Update>, i: nat)
    requires b.charsPerToken > 0.0 && i < |us| && Reclaims(us[i])
    ensures !UpdatedBy(b, us).canCompact && !UpdatedBy(b, us).autoCompact && UpdatedBy(b, us).compressibleMessages == 0
    decreases |us|
  {
    var init := us[..|us| - 1];
    if i < |init| {
      assert init[i] == us[i];
      NoOfferAfterReclaim(b, init, i);
    }
  }

  /** Reading the document at the size that was measured changes nothing; the
      server counts no compressible messages while compaction is off. */
  lemma LiveAsMeasured(s: Settings, document: nat, playbook: nat, msa: nat, review: nat, history: nat, system: nat,
                       compressibleMessages: nat, compressibleChars: nat)
    requires s.charsPerToken > 0.0 && (!s.enabled ==> compressibleMessages == 0)
    ensures var b :=
              Build(s, document, playbook, msa, review, history, system, compressibleMessages, compressibleChars);
            WithLiveDocument(b, document) == b
  {
    var b := Build(s, document, playbook, msa, review, history, system, compressibleMessages, compressibleChars);
    BuildIsConsistent(s, document, playbook, msa, review, history, system, compressibleMessages, compressibleChars);
    MapAt(b.parts, Rewritten(b, document));
    assert MapParts(b.parts, Rewritten(b, document)) == b.parts;
  }

  /** The last reading of the document wins, but for automatic condensing, which only narrows. */
  lemma LastReadingWins(b: Breakdown, first: nat, last: nat)
    requires Consistent(b)
    ensures var c := WithLiveDocument(WithLiveDocument(b, first), last);
            var d := WithLiveDocument(b, last);
            c == d.(autoCompact := c.autoCompact) && (c.autoCompact ==> d.autoCompact)
  {
    var m := WithLiveDocument(b, first);
    MapAt(b.parts, Rewritten(b, first));
    MapAt(m.parts, Rewritten(m, last));
    MapAt(b.parts, Rewritten(b, last));
    assert MapParts(m.parts, Rewritten(m, last)) == MapParts(b.parts, Rewritten(b, last));
  }

  /** Reclaiming and reading the document can come in either order. */
  lemma ReclaimAndReadCommute(b: Breakdown, chars: int, doc: nat)
    requires Consistent(b) && chars > 0
    ensures WithLiveDocument(WithReclaimedHistory(b, chars), doc) ==
            WithReclaimedHistory(WithLiveDocument(b, doc), chars)
  {
    var x, y := WithReclaimedHistory(b, chars), WithLiveDocument(b, doc);
    MapAt(b.parts, Reclaimed(b, chars));
    MapAt(x.parts, Rewritten(x, doc));
    MapAt(b.parts, Rewritten(b, doc));
    MapAt(y.parts, Reclaimed(y, chars));
    forall i | 0 <= i < |b.parts|
      ensures MapParts(x.parts, Rewritten(x, doc))[i] == MapParts(y.parts, Reclaimed(y, chars))[i]
    {
      assert Measured(b, b.parts[i]);
    }
    assert MapParts(x.parts, Rewritten(x, doc)) == MapParts(y.parts, Reclaimed(y, chars));
  }

  // ----- What reclaiming history does to the pressure

  /** The part at h is the only one that can be condensed. */
  ghost predicate OnlyHistory(parts: seq<Part>, h: nat) {
    h < |parts| && forall i :: 0 <= i < |parts| ==> (parts[i].compactable <==> i == h)
  }

  lemma {:induction false} NothingToReclaim(b: Breakdown, parts: seq<Part>, chars: nat)
    requires b.charsPerToken > 0.0 && forall i :: 0 <= i < |parts| ==> !parts[i].compactable
    ensures SumParts(MapParts(parts, Reclaimed(b, chars))) == SumParts(parts)
  {
    if parts != [] {
      NothingToReclaim(b, parts[1..], chars);
    }
  }

  /** Reclaiming takes what it says off the total, as far as history goes. */
  lemma {:induction false} ReclaimedFromTotal(b: Breakdown, parts: seq<Part>, h: nat, chars: nat)
    requires b.charsPerToken > 0.0 && OnlyHistory(parts, h)
    ensures SumParts(MapParts(parts, Reclaimed(b, chars))) + parts[h].chars ==
            SumParts(parts) + Monus(parts[h].chars, chars)
  {
    if h == 0 {
      NothingToReclaim(b, parts[1..], chars);
    } else {
      ReclaimedFromTotal(b, parts[1..], h - 1, chars);
    }
  }

  lemma ShareAtLeast(chars: nat, whole: nat, pct: nat)
    requires whole > 0
    ensures Share(chars, whole) >= pct <==> chars * 100 >= pct * whole
  {
    var q := Share(chars, whole);
    if q >= pct {
      assert q * whole >= pct * whole;
    } else {
      assert (q + 1) * whole <= pct * whole;
    }
  }

  /** Exactly when the warning shows after at least the target is reclaimed from a
      history that holds it: when the warn line is a whole number of characters and
      not one character more came back. It shows no more than the warn line then. */
  lemma WarnsAfterReclaimIff(b: Breakdown, h: nat, chars: nat)
    requires Consistent(b) && b.budgetChars > 0 && OnlyHistory(b.parts, h)
    requires 0 < ReclaimTarget(b) <= chars <= b.parts[h].chars
    ensures WithReclaimedHistory(b, chars).pct <= b.warnPct
    ensures IsWarning(WithReclaimedHistory(b, chars))
            <==> b.budgetChars * b.warnPct % 100 == 0 && chars == ReclaimTarget(b)
  {
    var c := WithReclaimedHistory(b, chars);
    ReclaimedFromTotal(b, b.parts, h, chars);
    ShareAtLeast(c.totalChars, b.budgetChars, b.warnPct);
    ShareAtLeast(c.totalChars, b.budgetChars, b.warnPct + 1);
    WarnLine(b.warnPct * b.budgetChars, c.totalChars);
    Product(b.budgetChars, b.warnPct);
  }

  lemma Product(whole: nat, pct: nat)
    ensures whole * pct == pct * whole && (pct + 1) * whole == pct * whole + whole
  {
  }

  lemma WarnLine(line: nat, total: nat)
    requires total <= line / 100
    ensures total * 100 <= line
    ensures total * 100 >= line <==> line % 100 == 0 && total == line / 100
  {
  }

  /** At the shipped settings the target alone leaves the warning up. */
  lemma TargetLeavesTheWarning(b: Breakdown, h: nat)
    requires Consistent(b) && OnlyHistory(b.parts, h) && b.budgetChars == 150000 && b.warnPct == 90
    requires 0 < ReclaimTarget(b) <= b.parts[h].chars
    ensures IsWarning(WithReclaimedHistory(b, ReclaimTarget(b)))
  {
    WarnsAfterReclaimIff(b, h, ReclaimTarget(b));
  }
}
