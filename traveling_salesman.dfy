/**
 * Ordering strategies of the tour planner: the heuristic cost of a visiting
 * order, the greedy nearest-neighbour order, and the front end of the
 * OR-tools open-path solver (cost matrix construction and route extraction).
 *
 * Apples are of an arbitrary type A; the distance heuristic is a pair of cost
 * functions over A. The routing solver itself is an oracle parameter.
 */
module TravelingSalesman {
  import opened Permutations

  /** The two estimates a DistanceHeuristics object provides. */
  datatype DistanceHeuristics<!A> = DistanceHeuristics(
    startToApple: A -> real,
    appleToApple: (A, A) -> real)

  const GreedyName := "greedy"
  const ORToolsName := "OR-tools"

  // ---------------------------------------------------------------------------
  // ordering_heuristic_cost

  /** The entries of the ordering that the cost reads (0..|apples|-1) exist and index apples. */
  predicate CostDefined<A>(ordering: seq<nat>, apples: seq<A>) {
    1 <= |apples| <= |ordering| && forall i :: 0 <= i < |apples| ==> ordering[i] < |apples|
  }

  /** Sum of apple_to_apple over the consecutive pairs among ordering[0..m-1]. */
  function LegsCost<A>(ordering: seq<nat>, apples: seq<A>, dh: DistanceHeuristics<A>, m: nat): real
    requires CostDefined(ordering, apples) && 1 <= m <= |apples|
  {
    if m == 1 then 0.0
    else LegsCost(ordering, apples, dh, m - 1)
         + dh.appleToApple(apples[ordering[m - 2]], apples[ordering[m - 1]])
  }

  /** Estimated length of the tour that visits the apples in the given order. */
  function HeuristicCost<A>(ordering: seq<nat>, apples: seq<A>, dh: DistanceHeuristics<A>): real
    requires CostDefined(ordering, apples)
  {
    dh.startToApple(apples[ordering[0]]) + LegsCost(ordering, apples, dh, |apples|)
  }

  /** ordering_heuristic_cost: the running sum computed by the source's loop. */
  method OrderingHeuristicCost<A>(ordering: seq<nat>, apples: seq<A>, dh: DistanceHeuristics<A>)
    returns (d: real)
    requires CostDefined(ordering, apples)
    ensures d == HeuristicCost(ordering, apples, dh)
  {
    d := dh.startToApple(apples[ordering[0]]);
    for i := 1 to |apples|
      invariant d == dh.startToApple(apples[ordering[0]]) + LegsCost(ordering, apples, dh, i)
    {
      d := d + dh.appleToApple(apples[ordering[i - 1]], apples[ordering[i]]);
    }
  }

  lemma {:induction false} LegsCostPrefix<A>(o1: seq<nat>, o2: seq<nat>, apples: seq<A>,
                                              dh: DistanceHeuristics<A>, m: nat)
    requires CostDefined(o1, apples) && CostDefined(o2, apples) && 1 <= m <= |apples|
    requires o1[..m] == o2[..m]
    ensures LegsCost(o1, apples, dh, m) == LegsCost(o2, apples, dh, m)
  {
    if m > 1 {
      assert o1[..m - 1] == o2[..m - 1] by {
        assert o1[..m - 1] == o1[..m][..m - 1];
        assert o2[..m - 1] == o2[..m][..m - 1];
      }
      LegsCostPrefix(o1, o2, apples, dh, m - 1);
      assert o1[m - 2] == o1[..m][m - 2] && o1[m - 1] == o1[..m][m - 1];
      assert o2[m - 2] == o2[..m][m - 2] && o2[m - 1] == o2[..m][m - 1];
    }
  }

  /** Entries of the ordering beyond the first |apples| never influence the cost. */
  lemma HeuristicCostIgnoresTail<A>(o1: seq<nat>, o2: seq<nat>, apples: seq<A>, dh: DistanceHeuristics<A>)
    requires CostDefined(o1, apples) && CostDefined(o2, apples)
    requires o1[..|apples|] == o2[..|apples|]
    ensures HeuristicCost(o1, apples, dh) == HeuristicCost(o2, apples, dh)
  {
    LegsCostPrefix(o1, o2, apples, dh, |apples|);
    assert o1[0] == o1[..|apples|][0] && o2[0] == o2[..|apples|][0];
  }

  lemma {:induction false} LegsCostNonNegative<A>(ordering: seq<nat>, apples: seq<A>,
                                                   dh: DistanceHeuristics<A>, m: nat)
    requires CostDefined(ordering, apples) && 1 <= m <= |apples|
    requires forall a, b :: dh.appleToApple(a, b) >= 0.0
    ensures LegsCost(ordering, apples, dh, m) >= 0.0
  {
    if m > 1 {
      LegsCostNonNegative(ordering, apples, dh, m - 1);
    }
  }

  /** With non-negative heuristics the estimated tour cost is non-negative. */
  lemma HeuristicCostNonNegative<A>(ordering: seq<nat>, apples: seq<A>, dh: DistanceHeuristics<A>)
    requires CostDefined(ordering, apples)
    requires forall a :: dh.startToApple(a) >= 0.0
    requires forall a, b :: dh.appleToApple(a, b) >= 0.0
    ensures HeuristicCost(ordering, apples, dh) >= 0.0
  {
    LegsCostNonNegative(ordering, apples, dh, |apples|);
  }

  // ---------------------------------------------------------------------------
  // GreedyOrderingStrategy::apple_ordering

  /**
   * f is what min_element returns over the indices 1..n-1 ordered by
   * start_to_apple: a minimum, and the earliest one among equals.
   */
  predicate IsFirstApple<A>(apples: seq<A>, dh: DistanceHeuristics<A>, f: nat) {
    && 1 <= f < |apples|
    && (forall j :: 1 <= j < |apples| ==> dh.startToApple(apples[f]) <= dh.startToApple(apples[j]))
    && (forall j :: 1 <= j < f ==> dh.startToApple(apples[f]) < dh.startToApple(apples[j]))
  }

  /**
   * c is an apple not yet in prefix whose apple_to_apple distance from the
   * last apple of prefix is minimal, and the lowest such index on ties.
   */
  predicate IsNearestUnvisited<A>(apples: seq<A>, dh: DistanceHeuristics<A>, prefix: seq<nat>, c: nat) {
    && |prefix| > 0 && AllBelow(prefix, |apples|)
    && c < |apples| && c !in prefix
    && (forall j :: 0 <= j < |apples| && j !in prefix ==>
          dh.appleToApple(apples[prefix[|prefix| - 1]], apples[c])
          <= dh.appleToApple(apples[prefix[|prefix| - 1]], apples[j]))
    && (forall j :: 0 <= j < c && j !in prefix ==>
          dh.appleToApple(apples[prefix[|prefix| - 1]], apples[c])
          < dh.appleToApple(apples[prefix[|prefix| - 1]], apples[j]))
  }

  /** The greedy order: the first apple by start cost, then always the nearest unvisited one. */
  predicate IsGreedyOrdering<A>(apples: seq<A>, dh: DistanceHeuristics<A>, ordering: seq<nat>) {
    && IsPermutation(ordering, |apples|)
    && |ordering| > 0
    && IsFirstApple(apples, dh, ordering[0])
    && FollowsNearest(apples, dh, ordering)
  }

  /** Every element after the first is the nearest unvisited apple from its predecessor. */
  predicate FollowsNearest<A>(apples: seq<A>, dh: DistanceHeuristics<A>, ordering: seq<nat>) {
    forall k {:trigger ordering[..k]} :: 1 <= k < |ordering| ==>
      IsNearestUnvisited(apples, dh, ordering[..k], ordering[k])
  }

  lemma FollowsNearestExtend<A>(apples: seq<A>, dh: DistanceHeuristics<A>, ordering: seq<nat>, next: nat)
    requires FollowsNearest(apples, dh, ordering)
    requires IsNearestUnvisited(apples, dh, ordering, next)
    ensures FollowsNearest(apples, dh, ordering + [next])
  {
    var o := ordering + [next];
    forall k | 1 <= k < |o|
      ensures IsNearestUnvisited(apples, dh, o[..k], o[k])
    {
      if k < |ordering| {
        assert o[..k] == ordering[..k];
      } else {
        assert o[..k] == ordering;
      }
    }
  }

  /** The min_element call: the earliest index in 1..n-1 of least start_to_apple. */
  method FirstApple<A>(apples: seq<A>, dh: DistanceHeuristics<A>) returns (first: nat)
    requires |apples| >= 2
    ensures IsFirstApple(apples, dh, first)
  {
    first := 1;
    for i := 2 to |apples|
      invariant 1 <= first < i
      invariant forall j :: 1 <= j < i ==> dh.startToApple(apples[first]) <= dh.startToApple(apples[j])
      invariant forall j :: 1 <= j < first ==> dh.startToApple(apples[first]) < dh.startToApple(apples[j])
    {
      if dh.startToApple(apples[i]) < dh.startToApple(apples[first]) {
        first := i;
      }
    }
  }

  /**
   * The inner loop of the greedy strategy: scan all apples and keep the
   * first unvisited one strictly nearer than the best so far.
   */
  method NearestUnvisited<A>(apples: seq<A>, dh: DistanceHeuristics<A>, visited: array<bool>,
                             ordering: seq<nat>)
    returns (next: nat)
    requires visited.Length == |apples|
    requires 0 < |ordering| < |apples|
    requires Distinct(ordering) && AllBelow(ordering, |apples|)
    requires forall j :: 0 <= j < |apples| ==> (visited[j] <==> j in ordering)
    ensures IsNearestUnvisited(apples, dh, ordering, next)
  {
    var n := |apples|;
    var last := ordering[|ordering| - 1];
    // found == false stands for next_distance == INFINITY
    var nextDistance, found := 0.0, false;
    next := 0;
    for i := 0 to n
      invariant found ==> next < i && !visited[next]
      invariant found ==> nextDistance == dh.appleToApple(apples[last], apples[next])
      invariant found ==> forall j :: 0 <= j < i && !visited[j] ==>
                  nextDistance <= dh.appleToApple(apples[last], apples[j])
      invariant found ==> forall j :: 0 <= j < next && !visited[j] ==>
                  nextDistance < dh.appleToApple(apples[last], apples[j])
      invariant !found ==> forall j :: 0 <= j < i ==> visited[j]
    {
      var candidateDistance := dh.appleToApple(apples[last], apples[i]);
      if !visited[i] && (!found || candidateDistance < nextDistance) {
        next, nextDistance, found := i, candidateDistance, true;
      }
    }
    assert found by {
      MissingIndex(ordering, n);
    }
  }

  /**
   * GreedyOrderingStrategy::apple_ordering. The source dereferences the result
   * of min_element over 1..n-1, so it needs at least two apples.
   */
  method GreedyOrdering<A>(apples: seq<A>, dh: DistanceHeuristics<A>) returns (ordering: seq<nat>)
    requires |apples| >= 2
    ensures IsGreedyOrdering(apples, dh, ordering)
    ensures forall j :: 0 <= j < |apples| ==> j in ordering
  {
    var n := |apples|;
    var first := FirstApple(apples, dh);

    var visited := new bool[n](_ => false);
    visited[first] := true;
    ordering := [first];

    while |ordering| < n
      invariant 1 <= |ordering| <= n
      invariant Distinct(ordering) && AllBelow(ordering, n)
      invariant ordering[0] == first
      invariant forall j :: 0 <= j < n ==> (visited[j] <==> j in ordering)
      invariant FollowsNearest(apples, dh, ordering)
      decreases n - |ordering|
    {
      var next := NearestUnvisited(apples, dh, visited, ordering);
      visited[next] := true;
      FollowsNearestExtend(apples, dh, ordering, next);
      ordering := ordering + [next];
    }
    PermutationCovers(ordering, n);
  }

  lemma NearestUnique<A>(apples: seq<A>, dh: DistanceHeuristics<A>, prefix: seq<nat>, c1: nat, c2: nat)
    requires IsNearestUnvisited(apples, dh, prefix, c1) && IsNearestUnvisited(apples, dh, prefix, c2)
    ensures c1 == c2
  {
  }

  lemma PrefixExtend(s: seq<nat>, t: seq<nat>, k: nat)
    requires 1 <= k <= |s| && k <= |t|
    requires s[..k - 1] == t[..k - 1] && s[k - 1] == t[k - 1]
    ensures s[..k] == t[..k]
  {
    assert s[..k] == s[..k - 1] + [s[k - 1]];
    assert t[..k] == t[..k - 1] + [t[k - 1]];
  }

  lemma FirstAppleUnique<A>(apples: seq<A>, dh: DistanceHeuristics<A>, f1: nat, f2: nat)
    requires IsFirstApple(apples, dh, f1) && IsFirstApple(apples, dh, f2)
    ensures f1 == f2
  {
    var c1, c2 := dh.startToApple(apples[f1]), dh.startToApple(apples[f2]);
    assert c1 <= c2 && c2 <= c1;
    assert f1 < f2 ==> c2 < c1;
    assert f2 < f1 ==> c1 < c2;
  }

  lemma NearestAt<A>(apples: seq<A>, dh: DistanceHeuristics<A>, ordering: seq<nat>, k: nat)
    requires FollowsNearest(apples, dh, ordering) && 1 <= k < |ordering|
    ensures IsNearestUnvisited(apples, dh, ordering[..k], ordering[k])
  {
  }

  lemma {:induction false} GreedyPrefixesAgree<A>(apples: seq<A>, dh: DistanceHeuristics<A>,
                                                  o1: seq<nat>, o2: seq<nat>, k: nat)
    requires |o1| == |o2| == |apples| && 1 <= k <= |apples|
    requires IsFirstApple(apples, dh, o1[0]) && IsFirstApple(apples, dh, o2[0])
    requires FollowsNearest(apples, dh, o1) && FollowsNearest(apples, dh, o2)
    ensures o1[..k] == o2[..k]
  {
    if k == 1 {
      FirstAppleUnique(apples, dh, o1[0], o2[0]);
      assert o1[..1] == [o1[0]] && o2[..1] == [o2[0]];
    } else {
      GreedyPrefixesAgree(apples, dh, o1, o2, k - 1);
      NearestAt(apples, dh, o1, k - 1);
      NearestAt(apples, dh, o2, k - 1);
      GreedyStep(apples, dh, o1, o2, k);
    }
  }

  /** Two orders that agree up to k-1 and both continue with the nearest unvisited apple agree up to k. */
  lemma GreedyStep<A>(apples: seq<A>, dh: DistanceHeuristics<A>, o1: seq<nat>, o2: seq<nat>, k: nat)
    requires 2 <= k <= |o1| && k <= |o2| && o1[..k - 1] == o2[..k - 1]
    requires IsNearestUnvisited(apples, dh, o1[..k - 1], o1[k - 1])
    requires IsNearestUnvisited(apples, dh, o2[..k - 1], o2[k - 1])
    ensures o1[..k] == o2[..k]
  {
    NearestUnique(apples, dh, o1[..k - 1], o1[k - 1], o2[k - 1]);
    PrefixExtend(o1, o2, k);
  }

  /** The greedy order is unique: the strategy is deterministic in its costs. */
  lemma GreedyOrderingUnique<A>(apples: seq<A>, dh: DistanceHeuristics<A>, o1: seq<nat>, o2: seq<nat>)
    requires IsGreedyOrdering(apples, dh, o1) && IsGreedyOrdering(apples, dh, o2)
    ensures o1 == o2
  {
    GreedyPrefixesAgree(apples, dh, o1, o2, |apples|);
    assert o1 == o1[..|apples|] && o2 == o2[..|apples|];
  }

  // ---------------------------------------------------------------------------
  // ORToolsOrderingStrategy::apple_ordering

  /** (int64_t)(x * 1000.0): x in thousandths, truncated toward zero. */
  function MilliUnits(x: real): (r: int)
    ensures x >= 0.0 ==> 0 <= r && r as real <= x * 1000.0 < r as real + 1.0
    ensures x < 0.0 ==> r <= 0 && r as real - 1.0 < x * 1000.0 <= r as real
  {
    if x >= 0.0 then (x * 1000.0).Floor else -((-x * 1000.0).Floor)
  }

  predicate IsSquare(m: seq<seq<int>>, size: nat) {
    |m| == size && forall i :: 0 <= i < size ==> |m[i]| == size
  }

  /** Entry (i, j) for apples i, j < n is the truncated apple_to_apple cost. */
  predicate AppleBlock<A>(m: seq<seq<int>>, apples: seq<A>, dh: DistanceHeuristics<A>) {
    var n := |apples|;
    && IsSquare(m, n + 2)
    && forall i, j :: 0 <= i < n && 0 <= j < n ==>
         m[i][j] == MilliUnits(dh.appleToApple(apples[i], apples[j]))
  }

  /** Row and column n hold the truncated start_to_apple costs, and (n, n) is 0. */
  predicate StartNodeEntries<A>(m: seq<seq<int>>, apples: seq<A>, dh: DistanceHeuristics<A>)
    requires IsSquare(m, |apples| + 2)
  {
    var n := |apples|;
    && (forall i :: 0 <= i < n ==>
          m[i][n] == MilliUnits(dh.startToApple(apples[i])) && m[n][i] == m[i][n])
    && m[n][n] == 0
  }

  /**
   * The (n+2)x(n+2) cost matrix: node i < n is apple i, node n the start state
   * and node n+1 the dummy end node.
   */
  predicate IsDistanceMatrix<A>(m: seq<seq<int>>, apples: seq<A>, dh: DistanceHeuristics<A>) {
    var n := |apples|;
    && AppleBlock(m, apples, dh)
    && StartNodeEntries(m, apples, dh)
    && (forall i :: 0 <= i < n + 2 ==> m[i][n + 1] == 0 && m[n + 1][i] == 0)
  }

  /** m with entry (i, j) replaced by v: the assignment m[i][j] = v. */
  function Update2(m: seq<seq<int>>, i: nat, j: nat, v: int): (r: seq<seq<int>>)
    requires i < |m| && j < |m[i]|
    ensures |r| == |m| && forall a :: 0 <= a < |m| ==> |r[a]| == |m[a]|
    ensures r[i][j] == v
    ensures forall a, b :: 0 <= a < |m| && 0 <= b < |m[a]| && (a != i || b != j) ==> r[a][b] == m[a][b]
  {
    m[i := m[i][j := v]]
  }

  /** The matrix construction of ORToolsOrderingStrategy::apple_ordering, filled in place. */
  method BuildDistanceMatrix<A>(apples: seq<A>, dh: DistanceHeuristics<A>) returns (m: seq<seq<int>>)
    ensures IsDistanceMatrix(m, apples, dh)
  {
    m := FillAppleBlock(apples, dh);
    m := FillStartNode(apples, dh, m);
    m := FillEndNode(apples, dh, m);
  }

  /** The zero-initialised matrix and the double loop over apple pairs. */
  method FillAppleBlock<A>(apples: seq<A>, dh: DistanceHeuristics<A>) returns (m: seq<seq<int>>)
    ensures AppleBlock(m, apples, dh)
  {
    var n := |apples|;
    m := seq(n + 2, _ => seq(n + 2, _ => 0));

    for i := 0 to n
      invariant IsSquare(m, n + 2)
      invariant forall i', j :: 0 <= i' < i && 0 <= j < n ==>
                  m[i'][j] == MilliUnits(dh.appleToApple(apples[i'], apples[j]))
    {
      for j := 0 to n
        invariant IsSquare(m, n + 2)
        invariant forall i', j' :: 0 <= i' < i && 0 <= j' < n ==>
                    m[i'][j'] == MilliUnits(dh.appleToApple(apples[i'], apples[j']))
        invariant forall j' :: 0 <= j' < j ==> m[i][j'] == MilliUnits(dh.appleToApple(apples[i], apples[j']))
      {
        m := Update2(m, i, j, MilliUnits(dh.appleToApple(apples[i], apples[j])));
      }
    }
  }

  /** The loop that mirrors start_to_apple into row and column n, then entry (n, n). */
  method FillStartNode<A>(apples: seq<A>, dh: DistanceHeuristics<A>, m0: seq<seq<int>>) returns (m: seq<seq<int>>)
    requires AppleBlock(m0, apples, dh)
    ensures AppleBlock(m, apples, dh) && StartNodeEntries(m, apples, dh)
  {
    var n := |apples|;
    m := m0;
    for i := 0 to n
      invariant AppleBlock(m, apples, dh)
      invariant forall i' :: 0 <= i' < i ==>
                  m[i'][n] == MilliUnits(dh.startToApple(apples[i'])) && m[n][i'] == m[i'][n]
    {
      m := Update2(m, i, n, MilliUnits(dh.startToApple(apples[i])));
      m := Update2(m, n, i, m[i][n]);
    }

    var startIndex := n;
    m := Update2(m, startIndex, startIndex, 0);
  }

  /** The loop that zeroes row and column n+1, the dummy end node. */
  method FillEndNode<A>(apples: seq<A>, dh: DistanceHeuristics<A>, m0: seq<seq<int>>) returns (m: seq<seq<int>>)
    requires AppleBlock(m0, apples, dh) && StartNodeEntries(m0, apples, dh)
    ensures IsDistanceMatrix(m, apples, dh)
  {
    var n := |apples|;
    var endIndex := n + 1;
    m := m0;
    for i := 0 to n + 2
      invariant AppleBlock(m, apples, dh) && StartNodeEntries(m, apples, dh)
      invariant forall i' :: 0 <= i' < i ==> m[i'][endIndex] == 0 && m[endIndex][i'] == 0
    {
      m := Update2(m, i, endIndex, 0);
      m := Update2(m, endIndex, i, 0);
    }
  }

  /** A symmetric apple_to_apple heuristic gives a symmetric matrix. */
  lemma DistanceMatrixSymmetric<A>(m: seq<seq<int>>, apples: seq<A>, dh: DistanceHeuristics<A>)
    requires IsDistanceMatrix(m, apples, dh)
    requires forall a, b :: dh.appleToApple(a, b) == dh.appleToApple(b, a)
    ensures forall i, j :: 0 <= i < |m| && 0 <= j < |m| ==> m[i][j] == m[j][i]
  {
  }

  /**
   * The nodes of a route in route order, without the synthetic start node n
   * and end node n+1.
   */
  function WithoutSyntheticNodes(route: seq<nat>, n: nat): (r: seq<nat>)
    ensures forall x :: x in r <==> x in route && x != n && x != n + 1
    ensures AllBelow(route, n + 2) ==> AllBelow(r, n)
  {
    if route == [] then []
    else
      var init := route[..|route| - 1];
      var node := route[|route| - 1];
      assert route == init + [node];
      var rest := WithoutSyntheticNodes(init, n);
      assert AllBelow(route, n + 2) ==> AllBelow(init, n + 2);
      if node != n && node != n + 1 then rest + [node] else rest
  }

  lemma {:induction false} WithoutSyntheticNodesDistinct(route: seq<nat>, n: nat)
    requires Distinct(route)
    ensures Distinct(WithoutSyntheticNodes(route, n))
  {
    if route != [] {
      var init := route[..|route| - 1];
      var node := route[|route| - 1];
      assert Distinct(init);
      WithoutSyntheticNodesDistinct(init, n);
      assert node !in init;
    }
  }

  /** The route walk of apple_ordering: keep every node except the two synthetic ones. */
  method ExtractOrdering(route: seq<nat>, n: nat) returns (ordering: seq<nat>)
    ensures ordering == WithoutSyntheticNodes(route, n)
  {
    ordering := [];
    for k := 0 to |route|
      invariant ordering == WithoutSyntheticNodes(route[..k], n)
    {
      var nodeIndex := route[k];
      assert route[..k + 1][..k] == route[..k];
      if nodeIndex != n && nodeIndex != n + 1 {
        ordering := ordering + [nodeIndex];
      }
    }
    assert route[..|route|] == route;
  }

  /**
   * What a one-vehicle routing solution from start to end yields when its
   * successor chain is walked up to (excluding) the end node: a path that
   * begins at start and visits every other node exactly once.
   */
  predicate IsOpenRoute(route: seq<nat>, size: nat, start: nat, end: nat) {
    && |route| > 0 && route[0] == start
    && Distinct(route) && AllBelow(route, size) && end !in route
    && forall j :: 0 <= j < size && j != end ==> j in route
  }

  /** The routing solver returns an open route for every matrix and pair of distinct nodes. */
  ghost predicate SolverReturnsOpenRoutes(solve: (seq<seq<int>>, nat, nat) -> seq<nat>) {
    forall m, start: nat, end: nat :: start < |m| && end < |m| && start != end ==>
      IsOpenRoute(solve(m, start, end), |m|, start, end)
  }

  /** A route that visits every node once yields a permutation of the apples. */
  lemma ExtractedPermutation(route: seq<nat>, n: nat)
    requires IsOpenRoute(route, n + 2, n, n + 1)
    ensures IsPermutation(WithoutSyntheticNodes(route, n), n)
  {
    var r := WithoutSyntheticNodes(route, n);
    WithoutSyntheticNodesDistinct(route, n);
    assert forall j :: 0 <= j < n ==> j in route;
    CoveringIsPermutation(r, n);
  }

  /**
   * ORToolsOrderingStrategy::apple_ordering with the solver passed in. It
   * hands the matrix, the start node n and the end node n+1 to the solver and
   * extracts the apple order from the route.
   */
  method ORToolsOrdering<A>(apples: seq<A>, dh: DistanceHeuristics<A>,
                            solve: (seq<seq<int>>, nat, nat) -> seq<nat>)
    returns (ordering: seq<nat>)
    ensures exists m :: IsDistanceMatrix(m, apples, dh)
              && ordering == WithoutSyntheticNodes(solve(m, |apples|, |apples| + 1), |apples|)
    ensures forall k :: 0 <= k < |ordering| ==> ordering[k] != |apples| && ordering[k] != |apples| + 1
    ensures SolverReturnsOpenRoutes(solve) ==> IsPermutation(ordering, |apples|)
  {
    var m := BuildDistanceMatrix(apples, dh);
    var startStateIndex := |apples|;
    var endStateIndex := |apples| + 1;
    var route := solve(m, startStateIndex, endStateIndex);
    ordering := ExtractOrdering(route, |apples|);
    assert forall k :: 0 <= k < |ordering| ==> ordering[k] in ordering;
    if SolverReturnsOpenRoutes(solve) {
      ExtractedPermutation(route, |apples|);
    }
  }
}
