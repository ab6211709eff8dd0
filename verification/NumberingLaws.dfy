// Which counters make up a paragraph's number.

module NumberingLaws {
  import opened Collections
  import opened Numbering

  /** Which of the levels 0 to n - 1 the list has counted. */
  function Counted(own: map<nat, int>, n: nat): (flags: seq<bool>)
    ensures |flags| == n && forall l :: 0 <= l < n ==> flags[l] == (l in own)
  {
    seq(n, l requires 0 <= l < n => l in own)
  }

  /** numbers are the counters of the levels `at`, in their order. */
  ghost predicate CountersAt(own: map<nat, int>, at: seq<nat>, numbers: seq<int>) {
    |numbers| == |at| && forall i :: 0 <= i < |at| ==> at[i] in own && numbers[i] == own[at[i]]
  }

  /** A paragraph's number is made of the counters of its own level and of every
      shallower one its list has counted, shallowest first. */
  lemma {:induction false} NumbersAre(own: map<nat, int>, n: nat)
    ensures CountersAt(own, Where(Counted(own, n)), Numbers(own, n))
  {
    if n > 0 {
      NumbersAre(own, n - 1);
      assert Counted(own, n)[..n - 1] == Counted(own, n - 1);
    }
  }

  /** Where numbering.xml says nothing, the list is abstract list 0's, and a level is decimal from 1. */
  lemma DefaultsAre(d: Definitions, num: string, l: nat)
    ensures var abstractId := if num in d.numToAbstract then d.numToAbstract[num] else "0";
            && (abstractId in d.levels && l in d.levels[abstractId] ==> d.LevelOf(num, l) == d.levels[abstractId][l])
            && (!(abstractId in d.levels && l in d.levels[abstractId]) ==>
                  d.LevelOf(num, l).numFmt == "decimal" && d.LevelOf(num, l).start == 1)
    ensures d.IsDecimal(num, l) <==> d.LevelOf(num, l).numFmt == "decimal"
  {
  }
}
