/** Geometric paths as sequences of states. */
module Paths {

  function Last<S>(p: seq<S>): S
    requires |p| > 0
  {
    p[|p| - 1]
  }

  /** PathGeometric::reverse: the same states in the opposite order. */
  function Reverse<S>(p: seq<S>): (r: seq<S>)
    ensures |r| == |p|
    ensures forall i :: 0 <= i < |p| ==> r[i] == p[|p| - 1 - i]
  {
    if p == [] then [] else Reverse(p[1..]) + [p[0]]
  }
}
