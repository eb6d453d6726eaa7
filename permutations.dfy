/**
 * Index sequences: repetition-free sequences of indices and permutations of
 * 0..n-1, which is what every ordering strategy of the tour planner returns.
 */
module Permutations {

  /** No index occurs twice. */
  predicate Distinct(s: seq<nat>) {
    forall p, q :: 0 <= p < q < |s| ==> s[p] != s[q]
  }

  /** Every index is a valid position in a collection of n items. */
  predicate AllBelow(s: seq<nat>, n: nat) {
    forall k :: 0 <= k < |s| ==> s[k] < n
  }

  /** s lists each of 0..n-1 exactly once. */
  predicate IsPermutation(s: seq<nat>, n: nat) {
    |s| == n && Distinct(s) && AllBelow(s, n)
  }

  function Elems(s: seq<nat>): set<nat> {
    set x | x in s
  }

  /** The indices 0..n-1. */
  function RangeSet(n: nat): (r: set<nat>)
    ensures forall i: nat :: i in r <==> i < n
  {
    if n == 0 then {} else RangeSet(n - 1) + {n - 1}
  }

  lemma SubsetCard(a: set<nat>, b: set<nat>)
    requires a <= b
    ensures |a| <= |b|
    decreases a
  {
    if a != {} {
      var x :| x in a;
      SubsetCard(a - {x}, b - {x});
    }
  }

  lemma {:induction false} DistinctCard(s: seq<nat>)
    requires Distinct(s)
    ensures |Elems(s)| == |s|
  {
    if s != [] {
      DistinctCard(s[1..]);
      assert Elems(s) == Elems(s[1..]) + {s[0]};
    }
  }

  lemma {:induction false} RangeCard(n: nat)
    ensures |RangeSet(n)| == n
  {
    if n > 0 {
      RangeCard(n - 1);
    }
  }

  /** Pigeonhole: fewer than n distinct indices below n leave one index out. */
  lemma MissingIndex(s: seq<nat>, n: nat)
    requires Distinct(s) && AllBelow(s, n) && |s| < n
    ensures exists j :: 0 <= j < n && j !in s
  {
    if forall j :: 0 <= j < n ==> j in s {
      assert RangeSet(n) <= Elems(s);
      SubsetCard(RangeSet(n), Elems(s));
      RangeCard(n);
      DistinctCard(s);
      assert false;
    }
  }

  /** A permutation of 0..n-1 contains every index below n. */
  lemma PermutationCovers(s: seq<nat>, n: nat)
    requires IsPermutation(s, n)
    ensures forall j :: 0 <= j < n ==> j in s
  {
    forall j | 0 <= j < n
      ensures j in s
    {
      if j !in s {
        assert Elems(s) <= RangeSet(n) - {j};
        SubsetCard(Elems(s), RangeSet(n) - {j});
        RangeCard(n);
        DistinctCard(s);
        assert false;
      }
    }
  }

  /** Distinct indices below n that cover 0..n-1 form a permutation. */
  lemma CoveringIsPermutation(s: seq<nat>, n: nat)
    requires Distinct(s) && AllBelow(s, n)
    requires forall j :: 0 <= j < n ==> j in s
    ensures IsPermutation(s, n)
  {
    assert RangeSet(n) <= Elems(s);
    assert Elems(s) <= RangeSet(n);
    SubsetCard(RangeSet(n), Elems(s));
    SubsetCard(Elems(s), RangeSet(n));
    RangeCard(n);
    DistinctCard(s);
  }
}
