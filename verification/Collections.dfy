// Facts about sets and sequences the models share.

module Collections {
  lemma {:induction false} SubsetSize<T>(a: set<T>, b: set<T>)
    requires a <= b
    ensures |a| <= |b|
  {
    if a != {} {
      var x :| x in a;
      SubsetSize(a - {x}, b - {x});
    }
  }

  ghost predicate Ascending(at: seq<nat>) {
    forall i, j :: 0 <= i < j < |at| ==> at[i] < at[j]
  }

  /** Where the flags are set. */
  function Where(flags: seq<bool>): (at: seq<nat>)
    ensures Ascending(at) && forall i :: 0 <= i < |at| ==> at[i] < |flags|
  {
    if flags == [] then []
    else
      var n := |flags| - 1;
      Where(flags[..n]) + if flags[n] then [n] else []
  }

  lemma {:induction false} WhereOf(flags: seq<bool>, k: nat)
    requires k < |flags|
    ensures k in Where(flags) <==> flags[k]
  {
    var n := |flags| - 1;
    if k < n {
      WhereOf(flags[..n], k);
    }
    assert n !in Where(flags[..n]);
  }
}
