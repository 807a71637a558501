/** Counting: initial segments of the natural numbers, subsets and injections. */
module Finite {

  function Below(n: nat): (r: set<nat>)
    ensures |r| == n && forall k: nat :: k in r <==> k < n
  {
    if n == 0 then {} else Below(n - 1) + {n - 1}
  }

  lemma {:induction false} SubsetSize(a: set<nat>, b: set<nat>)
    requires a <= b
    ensures |a| <= |b| && (|a| == |b| ==> a == b)
  {
    if a != {} {
      var x :| x in a;
      SubsetSize(a - {x}, b - {x});
    }
  }

  /** As many different elements as the set has are all of its elements. */
  lemma {:induction false} Pigeonhole(f: seq<nat>, s: set<nat>)
    requires |f| == |s| && forall i :: 0 <= i < |f| ==> f[i] in s
    requires forall i, j :: 0 <= i < j < |f| ==> f[i] != f[j]
    ensures forall k :: k in s ==> k in f
  {
    if f != [] {
      var n := |f| - 1;
      Pigeonhole(f[..n], s - {f[n]});
      forall k | k in s
        ensures k in f
      {
        assert k != f[n] ==> k in f[..n];
      }
    } else {
      assert s == {};
    }
  }
}
