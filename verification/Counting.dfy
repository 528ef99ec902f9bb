/** Finite counting facts that several modules need. */
module Counting {

  /** The numbers below `n`. */
  function Below(n: nat): (r: set<nat>)
    ensures |r| == n
    ensures forall k: nat :: k in r <==> k < n
  {
    if n == 0 then {} else Below(n - 1) + {n - 1}
  }

  predicate NoRepeats<T(==)>(s: seq<T>) {
    forall j, k :: 0 <= j < k < |s| ==> s[j] != s[k]
  }

  function Elements<T(!new)>(s: seq<T>): (r: set<T>)
    ensures forall x :: x in r <==> x in s
    ensures NoRepeats(s) ==> |r| == |s|
  {
    if |s| == 0 then {}
    else
      var m := |s| - 1;
      assert s == s[..m] + [s[m]];
      assert NoRepeats(s) ==> NoRepeats(s[..m]) && s[m] !in s[..m];
      Elements(s[..m]) + {s[m]}
  }

  lemma {:induction false} SubsetSize<T>(a: set<T>, b: set<T>)
    requires a <= b
    ensures |a| <= |b|
  {
    if a != {} {
      var x :| x in a;
      SubsetSize(a - {x}, b - {x});
    }
  }

  /** A list of n distinct numbers below n names every one of them. */
  lemma Pigeonhole(s: seq<nat>, i: nat)
    requires i < |s| && NoRepeats(s)
    requires forall k :: 0 <= k < |s| ==> s[k] < |s|
    ensures i in s
  {
    if i !in s {
      SubsetSize(Elements(s), Below(|s|) - {i});
    }
  }
}
