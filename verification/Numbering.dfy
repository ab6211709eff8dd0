// NumberingResolver of ingest/numbering.py: the counters kept per list and
// level, against a count over the paragraphs seen (multilevel numbering as in
// section 17.9 of ECMA-376 Part 1).

module Numbering {
  import opened Wrappers

  datatype Level = Level(numFmt: string, start: int)

  /** A numbered paragraph: its list and its level in it. */
  type Paragraph = (string, nat)

  datatype Resolved = Resolved(numbers: seq<int>, ilvl: nat, numFmt: string)

  /** What numbering.xml defines; anything missing has the resolver's default. */
  datatype Definitions = Definitions(numToAbstract: map<string, string>, levels: map<string, map<nat, Level>>) {
    function LevelOf(num: string, l: nat): Level {
      var abstractId := if num in numToAbstract then numToAbstract[num] else "0";
      if abstractId in levels && l in levels[abstractId] then levels[abstractId][l] else Level("decimal", 1)
    }

    predicate IsDecimal(num: string, l: nat) {
      LevelOf(num, l).numFmt == "decimal"
    }
  }

  // ----- Counting over the paragraphs seen

  /** Paragraphs at level l of the list since its last shallower one. */
  function CountSince(history: seq<Paragraph>, num: string, l: nat): nat {
    if history == [] then 0
    else
      var p := history[|history| - 1];
      var before := history[..|history| - 1];
      if p.0 != num || p.1 > l then CountSince(before, num, l)
      else if p.1 == l then CountSince(before, num, l) + 1
      else 0
  }

  predicate Seen(history: seq<Paragraph>, num: string, l: nat) {
    (num, l) in history
  }

  /** What the counters hold, told from the paragraphs alone: below the top level
      the start value, less one, plus the paragraphs since the last shallower one. */
  ghost predicate CountsBelowTop(d: Definitions, history: seq<Paragraph>, counters: map<string, map<nat, int>>) {
    && (forall num, l :: Seen(history, num, l) <==> num in counters && l in counters[num])
    && (forall num, l :: num in counters && l in counters[num] && l > 0 ==>
          counters[num][l] == d.LevelOf(num, l).start - 1 + CountSince(history, num, l))
  }

  /** Top-level number of each list seen, and the last decimal one of any list: a
      list counts on from itself, a decimal list's first from the last decimal number. */
  function TopNumbers(d: Definitions, history: seq<Paragraph>): (r: (map<string, int>, Option<int>)) {
    if history == [] then (map[], None)
    else
      var p := history[|history| - 1];
      var t := TopNumbers(d, history[..|history| - 1]);
      if p.1 > 0 then t
      else
        var n := if p.0 in t.0 then t.0[p.0] + 1
                 else if d.IsDecimal(p.0, 0) && t.1.Some? then t.1.value + 1
                 else d.LevelOf(p.0, 0).start;
        (t.0[p.0 := n], if d.IsDecimal(p.0, 0) then Some(n) else t.1)
  }

  /** Counters at the top level. */
  ghost predicate CountsAtTop(
      d: Definitions, history: seq<Paragraph>, counters: map<string, map<nat, int>>, last: map<nat, int>) {
    var t := TopNumbers(d, history);
    && (forall num :: num in t.0 <==> num in counters && 0 in counters[num])
    && (forall num :: num in t.0 ==> counters[num][0] == t.0[num])
    && (t.1 == if 0 in last then Some(last[0]) else None)
  }

  /** One list's counters after a paragraph at level l: its own level moves on, deeper ones are reset. */
  function Moved(d: Definitions, own: map<nat, int>, last: map<nat, int>, num: string, l: nat): map<nat, int> {
    var n := if l in own then own[l] + 1
             else if d.IsDecimal(num, l) && l == 0 && l in last then last[l] + 1
             else d.LevelOf(num, l).start;
    map k | k in own.Keys + {l} :: if k == l then n else if k > l then d.LevelOf(num, k).start - 1 else own[k]
  }

  lemma CountSinceStep(history: seq<Paragraph>, num: string, l: nat, other: string, k: nat)
    ensures var h := history + [(num, l)];
            CountSince(h, other, k) ==
            if other != num || l > k then CountSince(history, other, k)
            else if l == k then CountSince(history, other, k) + 1
            else 0
  {
    assert (history + [(num, l)])[..|history|] == history;
  }

  /** Never seen at this level, so nothing counted. */
  lemma {:induction false} UnseenIsZero(history: seq<Paragraph>, num: string, l: nat)
    requires !Seen(history, num, l)
    ensures CountSince(history, num, l) == 0
  {
    if history != [] {
      assert history[|history| - 1] in history;
      UnseenIsZero(history[..|history| - 1], num, l);
    }
  }

  /** The step a paragraph makes keeps the counters what the count says. */
  lemma MoveKeepsCounts(
      d: Definitions, history: seq<Paragraph>, counters: map<string, map<nat, int>>, last: map<nat, int>,
      num: string, l: nat)
    requires CountsBelowTop(d, history, counters)
    ensures var own := if num in counters then counters[num] else map[];
            CountsBelowTop(d, history + [(num, l)], counters[num := Moved(d, own, last, num, l)])
  {
    var own := if num in counters then counters[num] else map[];
    var h := history + [(num, l)];
    var counters' := counters[num := Moved(d, own, last, num, l)];
    forall n, k
      ensures Seen(h, n, k) <==> Seen(history, n, k) || (n == num && k == l)
    {
    }
    forall n, k | n in counters' && k in counters'[n] && k > 0
      ensures counters'[n][k] == d.LevelOf(n, k).start - 1 + CountSince(h, n, k)
    {
      CountSinceStep(history, num, l, n, k);
      if n == num {
        MovedCounts(d, history, own, last, num, l, k);
      }
    }
  }

  lemma MovedCounts(
    d: Definitions, history: seq<Paragraph>, own: map<nat, int>, last: map<nat, int>, num: string, l: nat, k: nat)
    requires k > 0 && k in Moved(d, own, last, num, l)
    requires k in own <==> Seen(history, num, k)
    requires k in own ==> own[k] == d.LevelOf(num, k).start - 1 + CountSince(history, num, k)
    ensures Moved(d, own, last, num, l)[k] == d.LevelOf(num, k).start - 1 + CountSince(history + [(num, l)], num, k)
  {
    CountSinceStep(history, num, l, num, k);
    if !Seen(history, num, k) {
      UnseenIsZero(history, num, k);
    }
  }

  lemma MoveKeepsTop(
      d: Definitions, history: seq<Paragraph>, counters: map<string, map<nat, int>>, last: map<nat, int>,
      num: string, l: nat)
    requires CountsAtTop(d, history, counters, last)
    ensures var own := if num in counters then counters[num] else map[];
            var own' := Moved(d, own, last, num, l);
            var last' := if d.IsDecimal(num, l) then last[l := own'[l]] else last;
            CountsAtTop(d, history + [(num, l)], counters[num := own'], last')
  {
    assert (history + [(num, l)])[..|history|] == history;
  }

  // ----- Which top-level numbers come out

  /** The lists of the decimal top-level paragraphs, in order. */
  function TopLists(d: Definitions, history: seq<Paragraph>): seq<string> {
    if history == [] then []
    else
      var p := history[|history| - 1];
      var before := TopLists(d, history[..|history| - 1]);
      if p.1 == 0 && d.IsDecimal(p.0, 0) then before + [p.0] else before
  }

  /** The number each of them was given. */
  function TopGiven(d: Definitions, history: seq<Paragraph>): seq<int> {
    if history == [] then []
    else
      var p := history[|history| - 1];
      var before := TopGiven(d, history[..|history| - 1]);
      if p.1 == 0 && d.IsDecimal(p.0, 0) then before + [TopNumbers(d, history).0[p.0]] else before
  }

  lemma GivenMore(d: Definitions, history: seq<Paragraph>, num: string, l: nat)
    ensures var h := history + [(num, l)];
            l == 0 && d.IsDecimal(num, 0) ==> TopGiven(d, h) == TopGiven(d, history) + [TopNumbers(d, h).0[num]]
  {
    assert (history + [(num, l)])[..|history|] == history;
  }

  /** Last place of an element. */
  function LastAt<T(==)>(s: seq<T>, x: T): (i: nat)
    requires x in s
    ensures i < |s| && s[i] == x && forall j :: i < j < |s| ==> s[j] != x
  {
    if s[|s| - 1] == x then |s| - 1 else LastAt(s[..|s| - 1], x)
  }

  /** A list counts on from its own last number, a list's first follows the last number given. */
  predicate CountsOn(d: Definitions, lists: seq<string>, given: seq<int>, i: nat)
    requires i < |lists| == |given|
  {
    given[i] == if lists[i] in lists[..i] then given[LastAt(lists[..i], lists[i])] + 1
                else if i > 0 then given[i - 1] + 1
                else d.LevelOf(lists[i], 0).start
  }

  ghost predicate AllCountOn(d: Definitions, lists: seq<string>, given: seq<int>) {
    |lists| == |given| && forall i :: 0 <= i < |lists| ==> CountsOn(d, lists, given, i)
  }

  /** What the fold over the paragraphs holds, told from the lists and the numbers given. */
  ghost predicate HeldTop(d: Definitions, t: (map<string, int>, Option<int>), lists: seq<string>, given: seq<int>) {
    && |lists| == |given|
    && (forall num :: d.IsDecimal(num, 0) ==> (num in t.0 <==> num in lists))
    && (forall num :: num in lists ==> d.IsDecimal(num, 0) && num in t.0 && t.0[num] == given[LastAt(lists, num)])
    && t.1 == if lists == [] then None else Some(given[|given| - 1])
  }

  lemma LastOfMore<T>(s: seq<T>, x: T, y: T)
    ensures LastAt(s + [x], x) == |s|
    ensures y in s && y != x ==> LastAt(s + [x], y) == LastAt(s, y)
  {
    assert (s + [x])[..|s|] == s;
  }

  lemma HeldMore(
      d: Definitions, t: (map<string, int>, Option<int>), lists: seq<string>, given: seq<int>, num: string, n: int)
    requires HeldTop(d, t, lists, given) && d.IsDecimal(num, 0)
    ensures HeldTop(d, (t.0[num := n], Some(n)), lists + [num], given + [n])
  {
    forall other | other in lists + [num]
      ensures d.IsDecimal(other, 0) && t.0[num := n][other] == (given + [n])[LastAt(lists + [num], other)]
    {
      LastOfMore(lists, num, other);
    }
  }

  lemma CountOnMore(d: Definitions, lists: seq<string>, given: seq<int>, num: string, n: int)
    requires AllCountOn(d, lists, given)
    requires n == if num in lists then given[LastAt(lists, num)] + 1
                  else if lists != [] then given[|given| - 1] + 1
                  else d.LevelOf(num, 0).start
    ensures AllCountOn(d, lists + [num], given + [n])
  {
    var lists', given' := lists + [num], given + [n];
    assert lists'[..|lists|] == lists;
    forall i | 0 <= i < |lists|
      ensures CountsOn(d, lists', given', i)
    {
      assert lists'[..i] == lists[..i] && CountsOn(d, lists, given, i);
    }
    assert CountsOn(d, lists', given', |lists|);
  }

  /** Every decimal top-level paragraph's number: its list's last one plus one, or,
      for a list's first, the last number given plus one, or its start value. */
  lemma {:induction false} TopCountsOn(d: Definitions, history: seq<Paragraph>)
    ensures AllCountOn(d, TopLists(d, history), TopGiven(d, history))
    ensures HeldTop(d, TopNumbers(d, history), TopLists(d, history), TopGiven(d, history))
  {
    if history != [] {
      var p, before := history[|history| - 1], history[..|history| - 1];
      TopCountsOn(d, before);
      var t, lists, given := TopNumbers(d, before), TopLists(d, before), TopGiven(d, before);
      if p.1 == 0 && d.IsDecimal(p.0, 0) {
        var n := TopNumbers(d, history).0[p.0];
        CountOnMore(d, lists, given, p.0, n);
        HeldMore(d, t, lists, given, p.0, n);
      }
    }
  }

  /** No list is taken up again after another one has come between. */
  predicate NeverResumed(lists: seq<string>) {
    forall i, j, k :: 0 <= i < j < k < |lists| && lists[i] == lists[k] ==> lists[j] == lists[i]
  }

  predicate Different(ns: seq<int>) {
    forall i, j :: 0 <= i < j < |ns| ==> ns[i] != ns[j]
  }

  /** Until a list is resumed each number is the last plus one. */
  lemma {:induction false} InARow(d: Definitions, lists: seq<string>, given: seq<int>, i: nat)
    requires AllCountOn(d, lists, given) && NeverResumed(lists) && i < |lists|
    ensures given[i] == d.LevelOf(lists[0], 0).start + i
  {
    assert CountsOn(d, lists, given, i);
    if i > 0 {
      InARow(d, lists, given, i - 1);
      if lists[i] in lists[..i] {
        var l := LastAt(lists[..i], lists[i]);
        assert lists[..i][i - 1] == lists[i - 1];
      }
    }
  }

  lemma CountOnPrefix(d: Definitions, lists: seq<string>, given: seq<int>, n: nat)
    requires AllCountOn(d, lists, given) && n <= |lists|
    ensures AllCountOn(d, lists[..n], given[..n])
  {
    forall i | 0 <= i < n
      ensures CountsOn(d, lists[..n], given[..n], i)
    {
      assert lists[..n][..i] == lists[..i] && CountsOn(d, lists, given, i);
    }
  }

  /** The first list resumed gets the number of the paragraph right after its own run. */
  lemma {:induction false} ResumedRepeats(d: Definitions, lists: seq<string>, given: seq<int>) returns (i: nat, k: nat)
    requires AllCountOn(d, lists, given) && !NeverResumed(lists)
    ensures 0 < i < k < |lists| && given[i] == given[k]
    ensures lists[i - 1] == lists[k] != lists[i]
  {
    var n := |lists| - 1;
    CountOnPrefix(d, lists, given, n);
    if !NeverResumed(lists[..n]) {
      i, k := ResumedRepeats(d, lists[..n], given[..n]);
    } else {
      k := n;
      i := LastResumes(lists, n);
      assert CountsOn(d, lists, given, n);
      InARow(d, lists[..n], given[..n], i - 1);
      InARow(d, lists[..n], given[..n], i);
    }
  }

  /** The first list resumed is the last one: i stands right after its own run. */
  lemma LastResumes(lists: seq<string>, n: nat) returns (i: nat)
    requires |lists| == n + 1 && NeverResumed(lists[..n]) && !NeverResumed(lists)
    ensures lists[n] in lists[..n] && i == LastAt(lists[..n], lists[n]) + 1
    ensures i < n && lists[i] != lists[n]
  {
    var init := lists[..n];
    forall a, b, c | 0 <= a < b < c < n && lists[a] == lists[c]
      ensures lists[b] == lists[a]
    {
      assert init[a] == lists[a] && init[b] == lists[b] && init[c] == lists[c];
    }
    var a, b, c :| 0 <= a < b < c < |lists| && lists[a] == lists[c] && lists[b] != lists[a];
    assert init[a] == lists[n] && init[b] == lists[b];
    i := LastAt(init, lists[n]) + 1;
    if b < n - 1 {
      NotTakenUp(init, a, b, n - 1);
    }
  }

  lemma NotTakenUp(lists: seq<string>, a: nat, b: nat, c: nat)
    requires NeverResumed(lists) && a < b < c < |lists| && lists[b] != lists[a]
    ensures lists[c] != lists[a]
  {
  }

  /** Decimal top-level numbers are pairwise different exactly when no decimal
      list is taken up again after another one's paragraph. */
  lemma TopNumbersDifferIff(d: Definitions, history: seq<Paragraph>)
    ensures Different(TopGiven(d, history)) <==> NeverResumed(TopLists(d, history))
  {
    TopCountsOn(d, history);
    var lists, given := TopLists(d, history), TopGiven(d, history);
    if NeverResumed(lists) {
      forall i, j | 0 <= i < j < |given|
        ensures given[i] != given[j]
      {
        InARow(d, lists, given, i);
        InARow(d, lists, given, j);
      }
    } else {
      var i, k := ResumedRepeats(d, lists, given);
    }
  }

  /** A list that is not decimal counts its own top-level paragraphs from its start value. */
  lemma {:induction false} OtherListsCount(d: Definitions, history: seq<Paragraph>, num: string)
    requires !d.IsDecimal(num, 0)
    ensures num in TopNumbers(d, history).0 <==> Seen(history, num, 0)
    ensures Seen(history, num, 0) ==>
              TopNumbers(d, history).0[num] == d.LevelOf(num, 0).start - 1 + CountSince(history, num, 0)
  {
    if history != [] {
      var before := history[..|history| - 1];
      OtherListsCount(d, before, num);
      assert history == before + [history[|history| - 1]];
      if !Seen(before, num, 0) {
        UnseenIsZero(before, num, 0);
      }
    }
  }

  /** The second of two lists that take turns repeats numbers: with one decimal
      list used, then another, then the first again, both last paragraphs are number 2. */
  lemma TurnsRepeatNumbers(d: Definitions)
    requires d.IsDecimal("1", 0) && d.IsDecimal("2", 0) && d.LevelOf("1", 0).start == 1
    ensures TopNumbers(d, [("1", 0), ("2", 0)]).0["2"] == 2
    ensures TopNumbers(d, [("1", 0), ("2", 0), ("1", 0)]).0["1"] == 2
  {
    var a: seq<Paragraph> := [("1", 0)];
    var b: seq<Paragraph> := [("1", 0), ("2", 0)];
    var c: seq<Paragraph> := [("1", 0), ("2", 0), ("1", 0)];
    assert a[..0] == [] && b[..1] == a && c[..2] == b;
    assert TopNumbers(d, a) == (map["1" := 1], Some(1));
    assert TopNumbers(d, b) == (map["1" := 1, "2" := 2], Some(2));
  }

  class NumberingResolver {
    const definitions: Definitions
    var counters: map<string, map<nat, int>>
    var lastDecimal: map<nat, int>
    ghost var history: seq<Paragraph>

    ghost predicate Valid()
      reads this
    {
      && CountsBelowTop(definitions, history, counters)
      && CountsAtTop(definitions, history, counters, lastDecimal)
    }

    constructor (d: Definitions)
      ensures Valid() && definitions == d && history == []
    {
      definitions := d;
      counters, lastDecimal, history := map[], map[], [];
    }

    /** `paragraph` is the list and level of the paragraph, when it has numbering. */
    method Resolve(paragraph: Option<Paragraph>) returns (r: Option<Resolved>)
      requires Valid()
      modifies this
      ensures Valid()
      ensures paragraph.None? ==> r.None? && history == old(history) && counters == old(counters)
      ensures paragraph.Some? ==>
                var (num, l) := paragraph.value;
                && history == old(history) + [(num, l)]
                && r.Some? && r.value.ilvl == l && r.value.numFmt == definitions.LevelOf(num, l).numFmt
                && num in counters && r.value.numbers == Numbers(counters[num], l + 1)
                && |r.value.numbers| > 0 && r.value.numbers[|r.value.numbers| - 1] == counters[num][l]
                && (l == 0 && definitions.IsDecimal(num, 0) ==>
                      TopGiven(definitions, history) == TopGiven(definitions, old(history)) + [counters[num][l]])
    {
      if paragraph.None? {
        return None;
      }
      var (num, l) := paragraph.value;
      var level := definitions.LevelOf(num, l);
      var own: map<nat, int> := if num in counters then counters[num] else map[];
      own := NextCounters(own, num, l);
      MoveKeepsCounts(definitions, history, counters, lastDecimal, num, l);
      MoveKeepsTop(definitions, history, counters, lastDecimal, num, l);
      if level.numFmt == "decimal" {
        lastDecimal := lastDecimal[l := own[l]];
      }
      counters := counters[num := own];
      GivenMore(definitions, history, num, l);
      history := history + [(num, l)];
      r := Some(Resolved(Numbers(own, l + 1), l, level.numFmt));
    }

    method NextCounters(own: map<nat, int>, num: string, l: nat) returns (r: map<nat, int>)
      ensures r == Moved(definitions, own, lastDecimal, num, l)
    {
      r := own;
      if l !in own {
        if definitions.LevelOf(num, l).numFmt == "decimal" && l == 0 && l in lastDecimal {
          r := r[l := lastDecimal[l] + 1];
        } else {
          r := r[l := definitions.LevelOf(num, l).start];
        }
      } else {
        r := r[l := r[l] + 1];
      }
      r := ResetDeeper(r, num, l);
    }

    method ResetDeeper(own: map<nat, int>, num: string, l: nat) returns (r: map<nat, int>)
      ensures r == map k | k in own :: if k > l then definitions.LevelOf(num, k).start - 1 else own[k]
    {
      r := own;
      var left := own.Keys;
      while left != {}
        invariant left <= own.Keys && r.Keys == own.Keys
        invariant forall k :: k in own ==>
                    r[k] == if k !in left && k > l then definitions.LevelOf(num, k).start - 1 else own[k]
      {
        var k :| k in left;
        if k > l {
          r := r[k := definitions.LevelOf(num, k).start - 1];
        }
        left := left - {k};
      }
    }
  }

  /** The counters of levels 0 to n - 1 that the list has, in order. */
  function Numbers(own: map<nat, int>, n: nat): (r: seq<int>)
    ensures n > 0 && n - 1 in own ==> r != [] && r[|r| - 1] == own[n - 1]
  {
    if n == 0 then []
    else Numbers(own, n - 1) + (if n - 1 in own then [own[n - 1]] else [])
  }
}
