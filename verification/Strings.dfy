// Operations on strings the models share: trimming, splitting, joining.

module Strings {
  import opened Wrappers

  /** Length of the longest prefix of characters that satisfy p. */
  function RunLength(p: char -> bool, s: string): (n: nat)
    ensures n <= |s| && (forall k :: 0 <= k < n ==> p(s[k])) && (n < |s| ==> !p(s[n]))
  {
    if s != [] && p(s[0]) then 1 + RunLength(p, s[1..]) else 0
  }

  lemma {:induction false} RunThen(p: char -> bool, a: string, b: string)
    requires (forall k :: 0 <= k < |a| ==> p(a[k])) && (b != [] ==> !p(b[0]))
    ensures RunLength(p, a + b) == |a|
  {
    if a == [] {
      assert a + b == b;
    } else {
      assert (a + b)[1..] == a[1..] + b;
      RunThen(p, a[1..], b);
    }
  }

  /** str.strip: characters that satisfy p taken off both ends. */
  function Trim(p: char -> bool, s: string): (t: string)
    ensures t == [] || (!p(t[0]) && !p(t[|t| - 1]))
    ensures |t| <= |s|
    ensures forall ch :: ch in t ==> ch in s
  {
    if s == [] then []
    else if p(s[0]) then Trim(p, s[1..])
    else if p(s[|s| - 1]) then Trim(p, s[..|s| - 1])
    else s
  }

  lemma {:induction false} TrimSuffix(p: char -> bool, s: string, x: char)
    requires p(x)
    ensures Trim(p, s + [x]) == Trim(p, s)
  {
    if s == [] {
      assert [] + [x] == [x];
    } else if p(s[0]) {
      assert (s + [x])[1..] == s[1..] + [x];
      TrimSuffix(p, s[1..], x);
    } else {
      assert (s + [x])[..|s|] == s;
    }
  }

  function AfterPrefix(s: string, prefix: string): Option<string> {
    if prefix <= s then Some(s[|prefix|..]) else None
  }

  function SplitAt(isBreak: char -> bool, s: string): (ls: seq<string>)
    ensures ls != []
    ensures forall i :: 0 <= i < |ls| ==> forall k :: 0 <= k < |ls[i]| ==> !isBreak(ls[i][k])
  {
    if s == [] then [""]
    else
      var rest := SplitAt(isBreak, s[1..]);
      if isBreak(s[0]) then [""] + rest else [[s[0]] + rest[0]] + rest[1..]
  }

  function JoinLines(ls: seq<string>): string {
    if ls == [] then ""
    else if |ls| == 1 then ls[0]
    else ls[0] + "\n" + JoinLines(ls[1..])
  }

  lemma {:induction false} SplitLine(isBreak: char -> bool, a: string, b: string)
    requires isBreak('\n') && forall k :: 0 <= k < |a| ==> !isBreak(a[k])
    ensures SplitAt(isBreak, a + "\n" + b) == [a] + SplitAt(isBreak, b)
  {
    var s := a + "\n" + b;
    if a == [] {
      assert s[1..] == b;
    } else {
      assert s[1..] == a[1..] + "\n" + b;
      SplitLine(isBreak, a[1..], b);
      assert [a[0]] + a[1..] == a;
    }
  }

  lemma {:induction false} SplitWhole(isBreak: char -> bool, a: string)
    requires forall k :: 0 <= k < |a| ==> !isBreak(a[k])
    ensures SplitAt(isBreak, a) == [a]
  {
    if a != [] {
      SplitWhole(isBreak, a[1..]);
      assert [a[0]] + a[1..] == a;
    }
  }

  lemma {:induction false} SplitJoined(isBreak: char -> bool, ls: seq<string>)
    requires isBreak('\n') && ls != []
    requires forall i :: 0 <= i < |ls| ==> forall k :: 0 <= k < |ls[i]| ==> !isBreak(ls[i][k])
    ensures SplitAt(isBreak, JoinLines(ls)) == ls
  {
    if |ls| == 1 {
      SplitWhole(isBreak, ls[0]);
    } else {
      SplitJoined(isBreak, ls[1..]);
      SplitLine(isBreak, ls[0], JoinLines(ls[1..]));
    }
  }

  /** Runs of white space become one space, none at either end: " ".join(s.split()). */
  function Squeeze(isSpace: char -> bool, s: string): string {
    if s == [] then []
    else
      var n := |s| - 1;
      var p := Squeeze(isSpace, s[..n]);
      if isSpace(s[n]) then p
      else if n > 0 && isSpace(s[n - 1]) && p != [] then p + " " + [s[n]]
      else p + [s[n]]
  }

  predicate StandsAt(s: string, t: string, k: nat) {
    k + |t| <= |s| && s[k..k + |t|] == t
  }

  /** t in s */
  predicate Contains(s: string, t: string) {
    exists k: nat :: k <= |s| && StandsAt(s, t, k)
  }
}
