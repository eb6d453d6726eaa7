/**
 * The k-nearest-neighbour baseline planner. While unvisited targets remain,
 * it asks for the k targets nearest to the current end-effector position and
 * plans to each of them from the last waypoint. It keeps the shortest
 * successful plan, the earliest on ties, and removes that target. It appends
 * the plan to the trajectory and records a segment. When no candidate
 * succeeds it removes the first candidate and changes nothing else.
 *
 * Robot states W and target positions P are abstract. The nearest-neighbour
 * structure, the point-to-point planner and extendTrajectory are oracles.
 */
module Knn {
  import opened Wrappers
  import opened Paths
  import opened PointToPoint

  /** The radius of the per-candidate near-target goal. */
  const CandidateGoalRadius: real := 0.2

  /** The collaborators of KNNPlanner::plan. */
  datatype KnnOracles<!W, !P> = KnnOracles(
    endEffector: W -> P,                                            // end_effector translation
    nearestK: (multiset<P>, P, nat) -> seq<P>,                      // NearestNeighborsGNAT::nearestK
    planPointToPoint: (Goal<P>, W, real) -> Option<PointToPointPlanResult<W, P>>,
    extendTrajectory: (seq<W>, seq<W>) -> seq<W>)

  /** nearestK on a non-empty set with k >= 1 returns between 1 and k members of the set. */
  ghost predicate NearestKValid<W, P(!new)>(o: KnnOracles<W, P>) {
    forall unvisited: multiset<P>, query: P, k: nat {:trigger o.nearestK(unvisited, query, k)} ::
      |unvisited| > 0 && k >= 1 ==>
        var knn := o.nearestK(unvisited, query, k);
        0 < |knn| <= k && forall i :: 0 <= i < |knn| ==> knn[i] in unvisited
  }

  /** extendTrajectory keeps a trajectory non-empty. */
  ghost predicate ExtendKeepsWaypoints<W(!new), P>(o: KnnOracles<W, P>) {
    forall t: seq<W>, s: seq<W> :: |t| > 0 ==> |o.extendTrajectory(t, s)| > 0
  }

  /** A recorded segment: the target reached and the plan that reached it. */
  datatype Segment<W, P> = Segment(target: P, result: PointToPointPlanResult<W, P>)

  /** The state of the outer loop. */
  datatype KnnState<W, P> = KnnState(unvisited: multiset<P>, trajectory: seq<W>, segments: seq<Segment<W, P>>)

  /** The best length so far, with INFINITY as the initial bound. */
  datatype Length = Finite(value: real) | Infinity

  predicate Below(x: real, bound: Length) {
    bound.Infinity? || x < bound.value
  }

  /** The plan to one candidate from the given waypoint, with an equal share of the time budget. */
  function PlanTo<W, P>(o: KnnOracles<W, P>, from: W, k: nat, timeBudget: real, target: P)
    : Option<PointToPointPlanResult<W, P>>
    requires k >= 1
  {
    o.planPointToPoint(Single(NearTarget(CandidateGoalRadius, target)), from, timeBudget / (k as real))
  }

  /**
   * The candidate the inner loop keeps: the shortest successful plan, and
   * of equally short ones the earliest in candidate order.
   */
  function BestIndex<W, P>(o: KnnOracles<W, P>, from: W, k: nat, timeBudget: real, knn: seq<P>): (r: Option<nat>)
    requires k >= 1
    ensures r.None? <==> forall j :: 0 <= j < |knn| ==> PlanTo(o, from, k, timeBudget, knn[j]).None?
    ensures r.Some? ==>
              && r.value < |knn|
              && PlanTo(o, from, k, timeBudget, knn[r.value]).Some?
              && (forall j :: 0 <= j < |knn| && PlanTo(o, from, k, timeBudget, knn[j]).Some? ==>
                    PlanTo(o, from, k, timeBudget, knn[r.value]).value.solutionLength
                      <= PlanTo(o, from, k, timeBudget, knn[j]).value.solutionLength)
              && (forall j :: 0 <= j < r.value && PlanTo(o, from, k, timeBudget, knn[j]).Some? ==>
                    PlanTo(o, from, k, timeBudget, knn[r.value]).value.solutionLength
                      < PlanTo(o, from, k, timeBudget, knn[j]).value.solutionLength)
  {
    if knn == [] then None
    else
      var n := |knn| - 1;
      var best := BestIndex(o, from, k, timeBudget, knn[..n]);
      assert forall j :: 0 <= j < n ==> knn[..n][j] == knn[j];
      var candidate := PlanTo(o, from, k, timeBudget, knn[n]);
      if candidate.Some? &&
         (best.None? || candidate.value.solutionLength < PlanTo(o, from, k, timeBudget, knn[best.value]).value.solutionLength)
      then Some(n)
      else best
  }

  /** The candidate list of an iteration. */
  function Candidates<W, P>(o: KnnOracles<W, P>, k: nat, s: KnnState<W, P>): seq<P>
    requires |s.trajectory| > 0
  {
    o.nearestK(s.unvisited, o.endEffector(Last(s.trajectory)), k)
  }

  /** The index in the candidate list of the target an iteration removes. */
  function RemovedIndex<W, P>(o: KnnOracles<W, P>, k: nat, timeBudget: real, s: KnnState<W, P>): nat
    requires k >= 1 && |s.trajectory| > 0
  {
    match BestIndex(o, Last(s.trajectory), k, timeBudget, Candidates(o, k, s))
    case Some(i) => i
    case None => 0
  }

  /** One iteration of the outer loop. */
  function KnnStep<W(!new), P(!new)>(o: KnnOracles<W, P>, k: nat, timeBudget: real, s: KnnState<W, P>)
    : (r: KnnState<W, P>)
    requires NearestKValid(o) && ExtendKeepsWaypoints(o) && k >= 1
    requires |s.unvisited| > 0 && |s.trajectory| > 0
    ensures var knn := Candidates(o, k, s);
            var i := RemovedIndex(o, k, timeBudget, s);
            && i < |knn| && knn[i] in s.unvisited
            && r.unvisited == s.unvisited - multiset{knn[i]}
    ensures |r.unvisited| == |s.unvisited| - 1
    ensures |r.trajectory| > 0
    ensures |s.segments| <= |r.segments| <= |s.segments| + 1 && r.segments[..|s.segments|] == s.segments
    ensures |r.segments| == |s.segments| ==> r.trajectory == s.trajectory
    ensures BestIndex(o, Last(s.trajectory), k, timeBudget, Candidates(o, k, s)).None? ==>
              && r.unvisited == s.unvisited - multiset{Candidates(o, k, s)[0]}
              && r.trajectory == s.trajectory && r.segments == s.segments
    ensures BestIndex(o, Last(s.trajectory), k, timeBudget, Candidates(o, k, s)).Some? ==>
              var knn := Candidates(o, k, s);
              var i := RemovedIndex(o, k, timeBudget, s);
              var result := PlanTo(o, Last(s.trajectory), k, timeBudget, knn[i]).value;
              && r.segments == s.segments + [Segment(knn[i], result)]
              && r.trajectory == o.extendTrajectory(s.trajectory, result.trajectory)
  {
    var from := Last(s.trajectory);
    var knn := Candidates(o, k, s);
    match BestIndex(o, from, k, timeBudget, knn)
    case Some(i) =>
      var result := PlanTo(o, from, k, timeBudget, knn[i]).value;
      KnnState(s.unvisited - multiset{knn[i]}, o.extendTrajectory(s.trajectory, result.trajectory),
               s.segments + [Segment(knn[i], result)])
    case None =>
      KnnState(s.unvisited - multiset{knn[0]}, s.trajectory, s.segments)
  }

  /**
   * The state after m iterations. Each iteration removes exactly one target
   * and appends at most one segment. An iteration that appends no segment
   * leaves the trajectory alone.
   */
  function KnnSteps<W(!new), P(!new)>(o: KnnOracles<W, P>, k: nat, timeBudget: real, s: KnnState<W, P>, m: nat)
    : (r: KnnState<W, P>)
    requires NearestKValid(o) && ExtendKeepsWaypoints(o) && k >= 1
    requires |s.trajectory| > 0 && m <= |s.unvisited|
    ensures |r.unvisited| == |s.unvisited| - m
    ensures |r.trajectory| > 0
    ensures |s.segments| <= |r.segments| <= |s.segments| + m
    ensures r.segments[..|s.segments|] == s.segments
    ensures |r.segments| == |s.segments| ==> r.trajectory == s.trajectory
  {
    if m == 0 then s
    else
      var prev := KnnSteps(o, k, timeBudget, s, m - 1);
      var r := KnnStep(o, k, timeBudget, prev);
      PrefixTransitive(s.segments, prev.segments, r.segments);
      r
  }

  /** One more iteration is one more step. */
  lemma KnnStepsUnfold<W(!new), P(!new)>(o: KnnOracles<W, P>, k: nat, timeBudget: real, s: KnnState<W, P>, m: nat)
    requires NearestKValid(o) && ExtendKeepsWaypoints(o) && k >= 1
    requires |s.trajectory| > 0 && m < |s.unvisited|
    ensures KnnSteps(o, k, timeBudget, s, m + 1) == KnnStep(o, k, timeBudget, KnnSteps(o, k, timeBudget, s, m))
  {
  }

  /** A prefix of a prefix is a prefix. */
  lemma PrefixTransitive<T>(a: seq<T>, b: seq<T>, c: seq<T>)
    requires |a| <= |b| <= |c| && b[..|a|] == a && c[..|b|] == b
    ensures c[..|a|] == a
  {
    assert c[..|a|] == c[..|b|][..|a|];
  }

  /** The state before the loop: every target unvisited, the start state as the only waypoint. */
  function InitialState<W, P>(targets: seq<P>, start: W): KnnState<W, P>
  {
    KnnState(multiset(targets), [start], [])
  }

  /** The decimal digits of n, most significant first, without leading zeros. */
  function Decimal(n: nat): (r: string)
    ensures |r| > 0
    ensures forall i :: 0 <= i < |r| ==> '0' <= r[i] <= '9'
    ensures r[0] == '0' ==> n == 0
  {
    var digit := ['0' + ((n % 10) as char)];
    if n < 10 then digit else Decimal(n / 10) + digit
  }

  /** The number a string of decimal digits denotes. */
  function DecimalValue(s: string): nat
    requires forall i :: 0 <= i < |s| ==> '0' <= s[i] <= '9'
  {
    if s == [] then 0 else 10 * DecimalValue(s[..|s| - 1]) + ((s[|s| - 1] - '0') as nat)
  }

  /** Decimal is the decimal notation of n: reading it back gives n. */
  lemma {:induction false} DecimalRoundTrip(n: nat)
    ensures DecimalValue(Decimal(n)) == n
  {
    var r := Decimal(n);
    assert r[..|r| - 1] == if n < 10 then [] else Decimal(n / 10);
    if n >= 10 {
      DecimalRoundTrip(n / 10);
    }
  }

  /** The ordering name: k in decimal followed by "-NN". */
  function KnnName(k: nat): (name: string)
    ensures |name| > 3 && name[|name| - 3..] == "-NN"
    ensures forall i :: 0 <= i < |name| - 3 ==> '0' <= name[i] <= '9'
    ensures DecimalValue(name[..|name| - 3]) == k
  {
    DecimalRoundTrip(k);
    var name := Decimal(k) + "-NN";
    assert name[..|name| - 3] == Decimal(k);
    name
  }

  /** BestIndex over one more candidate: the new one wins only with a strictly shorter plan. */
  lemma BestIndexExtend<W, P>(o: KnnOracles<W, P>, from: W, k: nat, timeBudget: real, knn: seq<P>, j: nat)
    requires k >= 1 && j < |knn|
    ensures var best := BestIndex(o, from, k, timeBudget, knn[..j]);
            var candidate := PlanTo(o, from, k, timeBudget, knn[j]);
            && (best.Some? ==> best.value < j)
            && BestIndex(o, from, k, timeBudget, knn[..j + 1])
               == if candidate.Some? &&
                     (best.None? || candidate.value.solutionLength
                                    < PlanTo(o, from, k, timeBudget, knn[best.value]).value.solutionLength)
                  then Some(j)
                  else best
  {
    var best := BestIndex(o, from, k, timeBudget, knn[..j]);
    assert knn[..j + 1][..j] == knn[..j];
    if best.Some? {
      assert knn[..j][best.value] == knn[best.value];
    }
  }

  /** The inner loop over the candidates: the best plan found and its target. */
  method BestCandidate<W, P>(o: KnnOracles<W, P>, from: W, k: nat, timeBudget: real, knn: seq<P>)
    returns (bestResult: Option<PointToPointPlanResult<W, P>>, bestTarget: P)
    requires k >= 1 && |knn| > 0
    ensures match BestIndex(o, from, k, timeBudget, knn)
            case None => bestResult.None?
            case Some(b) => bestResult == PlanTo(o, from, k, timeBudget, knn[b]) && bestTarget == knn[b]
  {
    bestResult := None;
    var bestLength := Infinity;
    bestTarget := knn[0];
    for j := 0 to |knn|
      invariant match BestIndex(o, from, k, timeBudget, knn[..j])
                case None => bestResult.None? && bestLength.Infinity?
                case Some(b) =>
                  && bestResult == PlanTo(o, from, k, timeBudget, knn[b])
                  && bestResult.Some?
                  && bestLength == Finite(bestResult.value.solutionLength)
                  && bestTarget == knn[b]
    {
      BestIndexExtend(o, from, k, timeBudget, knn, j);
      var target := knn[j];
      var result := o.planPointToPoint(Single(NearTarget(CandidateGoalRadius, target)), from, timeBudget / (k as real));
      if result.Some? && Below(result.value.solutionLength, bestLength) {
        bestResult := result;
        bestLength := Finite(result.value.solutionLength);
        bestTarget := target;
      }
    }
    assert knn[..|knn|] == knn;
  }

  /** Adding every target to the nearest-neighbour structure. */
  method UnvisitedSet<P>(targets: seq<P>) returns (unvisited: multiset<P>)
    ensures unvisited == multiset(targets)
  {
    unvisited := multiset{};
    for i := 0 to |targets|
      invariant unvisited == multiset(targets[..i])
    {
      assert targets[..i + 1] == targets[..i] + [targets[i]];
      unvisited := unvisited + multiset{targets[i]};
    }
    assert targets[..|targets|] == targets;
  }

  /** One pass of the outer loop body. */
  method Iteration<W(!new), P(!new)>(o: KnnOracles<W, P>, k: nat, timeBudget: real, unvisited: multiset<P>,
                                     trajectory: seq<W>, segments: seq<Segment<W, P>>)
    returns (unvisited': multiset<P>, trajectory': seq<W>, segments': seq<Segment<W, P>>)
    requires NearestKValid(o) && ExtendKeepsWaypoints(o) && k >= 1
    requires |unvisited| > 0 && |trajectory| > 0
    ensures KnnState(unvisited', trajectory', segments')
            == KnnStep(o, k, timeBudget, KnnState(unvisited, trajectory, segments))
  {
    var from := trajectory[|trajectory| - 1];
    var knn := o.nearestK(unvisited, o.endEffector(from), k);
    var bestResult, bestTarget := BestCandidate(o, from, k, timeBudget, knn);
    if bestResult.Some? {
      unvisited' := unvisited - multiset{bestTarget};
      trajectory' := o.extendTrajectory(trajectory, bestResult.value.trajectory);
      segments' := segments + [Segment(bestTarget, bestResult.value)];
    } else {
      unvisited' := unvisited - multiset{knn[0]};
      trajectory', segments' := trajectory, segments;
    }
  }

  /** The loop body of plan, run on the state after m iterations: it gives the state after m + 1. */
  method NextIteration<W(!new), P(!new)>(o: KnnOracles<W, P>, k: nat, timeBudget: real, ghost init: KnnState<W, P>,
                                         ghost m: nat, unvisited: multiset<P>, trajectory: seq<W>,
                                         segments: seq<Segment<W, P>>)
    returns (unvisited': multiset<P>, trajectory': seq<W>, segments': seq<Segment<W, P>>)
    requires NearestKValid(o) && ExtendKeepsWaypoints(o) && k >= 1
    requires |init.trajectory| > 0 && m < |init.unvisited|
    requires KnnState(unvisited, trajectory, segments) == KnnSteps(o, k, timeBudget, init, m)
    ensures KnnState(unvisited', trajectory', segments') == KnnSteps(o, k, timeBudget, init, m + 1)
  {
    KnnStepsUnfold(o, k, timeBudget, init, m);
    unvisited', trajectory', segments' := Iteration(o, k, timeBudget, unvisited, trajectory, segments);
  }

  /**
   * KNNPlanner::plan: the trajectory, the recorded segments and the ordering
   * label. The outer loop runs exactly once per target.
   */
  method Plan<W(!new), P(!new)>(o: KnnOracles<W, P>, k: nat, timeBudget: real, targets: seq<P>, start: W)
    returns (trajectory: seq<W>, segments: seq<Segment<W, P>>, name: string)
    requires NearestKValid(o) && ExtendKeepsWaypoints(o) && k >= 1
    ensures KnnState(multiset{}, trajectory, segments)
            == KnnSteps(o, k, timeBudget, InitialState(targets, start), |targets|)
    ensures name == KnnName(k)
  {
    var unvisited := UnvisitedSet(targets);
    ghost var init := InitialState(targets, start);
    assert |init.unvisited| == |targets|;
    trajectory := [start];
    segments := [];
    ghost var iterations := 0;
    while |unvisited| > 0
      invariant iterations <= |targets|
      invariant KnnState(unvisited, trajectory, segments) == KnnSteps(o, k, timeBudget, init, iterations)
      invariant |unvisited| == |targets| - iterations
      decreases |unvisited|
    {
      unvisited, trajectory, segments := NextIteration(o, k, timeBudget, init, iterations,
                                                       unvisited, trajectory, segments);
      iterations := iterations + 1;
    }
    name := Decimal(k) + "-NN";
  }

  /** Every target is visited or given up on: the loop ends with an empty set. */
  lemma KnnRunEmptiesSet<W(!new), P(!new)>(o: KnnOracles<W, P>, k: nat, timeBudget: real, targets: seq<P>, start: W)
    requires NearestKValid(o) && ExtendKeepsWaypoints(o) && k >= 1
    ensures var r := KnnSteps(o, k, timeBudget, InitialState(targets, start), |targets|);
            r.unvisited == multiset{} && |r.segments| <= |targets|
            && (r.segments == [] ==> r.trajectory == [start])
  {
    assert |multiset(targets)| == |targets|;
  }
}
