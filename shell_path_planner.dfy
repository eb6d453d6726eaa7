/**
 * The shell-path multi-goal planner. It plans one approach path from the
 * shell to every goal, orders the approaches with an open-path ordering
 * oracle fed with shell-predicted costs, and plans one real path from the
 * start to the first approach. It then stitches every later approach via
 * "retreat, move along the shell, probe".
 *
 * States S and goals G are abstract. The shell, the single-goal planner
 * methods, the optimizers and tsp_open_end are oracles collected in
 * ShellOracles.
 */
module ShellPath {
  import opened Wrappers
  import opened Permutations
  import opened Paths

  /** ShellPathPlanner::name. */
  const PlannerName := "ShellPathPlanner"

  /** std::pair<size_t, PathGeometric>: a goal index and the path from the shell to that goal. */
  datatype Approach<S> = Approach(goal: nat, path: seq<S>)

  /** One segment of a PlanResult: a goal index tag and a path. */
  datatype PathSegment<S> = PathSegment(goal: nat, path: seq<S>)

  datatype PlanResult<S> = PlanResult(segments: seq<PathSegment<S>>)

  /** The collaborators the planner calls but whose bodies this model does not see. */
  datatype ShellOracles<!S, !G> = ShellOracles(
    stateOnShell: G -> S,                       // OMPLSphereShellWrapper::state_on_shell
    pathOnShell: (G, G) -> seq<S>,              // OMPLSphereShellWrapper::path_on_shell
    predictFromState: (S, G) -> real,           // predict_path_length(state, goal)
    predictBetween: (G, G) -> real,             // predict_path_length(goal, goal)
    stateToGoal: (S, G) -> Option<seq<S>>,      // methods->state_to_goal
    stateToState: (S, S) -> Option<seq<S>>,     // methods->state_to_state
    optimizeExit: (G, seq<S>) -> seq<S>,        // optimizeExit with the path-length objective
    optimize: seq<S> -> seq<S>,                 // optimize with the path-length objective
    tspOpenEnd: (nat --> real, (nat, nat) --> real, nat) -> seq<nat>)

  // ---------------------------------------------------------------------------
  // Oracle contracts

  /** The assertion of planApproaches: every approach that is found has at least one state. */
  ghost predicate ApproachesHaveStates<S, G(!new)>(o: ShellOracles<S, G>, applyOpt: bool) {
    forall g :: PlanApproachForGoal(o, applyOpt, g).Some? ==> |PlanApproachForGoal(o, applyOpt, g).value| > 0
  }

  /** tsp_open_end returns a non-empty sequence of indices below n for n > 0 items. */
  ghost predicate OrderingOracleValid<S, G>(o: ShellOracles<S, G>) {
    forall f, g, n :: n > 0 ==> |o.tspOpenEnd(f, g, n)| > 0 && AllBelow(o.tspOpenEnd(f, g, n), n)
  }

  // ---------------------------------------------------------------------------
  // planApproachForGoal and planApproaches

  /**
   * planApproachForGoal: plan from the goal's shell state into the goal,
   * and apply optimizeExit when the option is set and a path was found.
   */
  function PlanApproachForGoal<S, G>(o: ShellOracles<S, G>, applyOpt: bool, goal: G): (r: Option<seq<S>>)
    ensures r.None? <==> o.stateToGoal(o.stateOnShell(goal), goal).None?
    ensures !applyOpt ==> r == o.stateToGoal(o.stateOnShell(goal), goal)
    ensures applyOpt && r.Some? ==>
              r.value == o.optimizeExit(goal, o.stateToGoal(o.stateOnShell(goal), goal).value)
  {
    var approachPath := o.stateToGoal(o.stateOnShell(goal), goal);
    if applyOpt && approachPath.Some? then Some(o.optimizeExit(goal, approachPath.value))
    else approachPath
  }

  /**
   * The approaches planApproaches collects: one per goal whose approach was
   * found, in goal order; the goals whose approach failed are skipped.
   */
  function SuccessfulApproaches<S, G>(o: ShellOracles<S, G>, applyOpt: bool, goals: seq<G>)
    : (r: seq<Approach<S>>)
    ensures |r| <= |goals|
    ensures forall k :: 0 <= k < |r| ==>
              r[k].goal < |goals| && PlanApproachForGoal(o, applyOpt, goals[r[k].goal]) == Some(r[k].path)
    ensures forall k1, k2 :: 0 <= k1 < k2 < |r| ==> r[k1].goal < r[k2].goal
  {
    if goals == [] then []
    else
      var i := |goals| - 1;
      var rest := SuccessfulApproaches(o, applyOpt, goals[..i]);
      assert forall k :: 0 <= k < |rest| ==> goals[..i][rest[k].goal] == goals[rest[k].goal];
      match PlanApproachForGoal(o, applyOpt, goals[i])
      case Some(p) => rest + [Approach(i, p)]
      case None => rest
  }

  /** Every goal whose approach succeeds does appear among the approaches. */
  lemma {:induction false} ApproachesComplete<S, G>(o: ShellOracles<S, G>, applyOpt: bool, goals: seq<G>, g: nat)
    requires g < |goals| && PlanApproachForGoal(o, applyOpt, goals[g]).Some?
    ensures exists k :: 0 <= k < |SuccessfulApproaches(o, applyOpt, goals)|
              && SuccessfulApproaches(o, applyOpt, goals)[k].goal == g
  {
    var i := |goals| - 1;
    var rest := SuccessfulApproaches(o, applyOpt, goals[..i]);
    var full := SuccessfulApproaches(o, applyOpt, goals);
    var p := PlanApproachForGoal(o, applyOpt, goals[i]);
    assert full == if p.Some? then rest + [Approach(i, p.value)] else rest;
    if g < i {
      assert goals[..i][g] == goals[g];
      ApproachesComplete(o, applyOpt, goals[..i], g);
      var k :| 0 <= k < |rest| && rest[k].goal == g;
      assert full[k] == rest[k];
    } else {
      assert full[|rest|].goal == g;
    }
  }

  /** Under the assertion of planApproaches every approach path is non-empty. */
  lemma ApproachPathsNonEmpty<S, G(!new)>(o: ShellOracles<S, G>, applyOpt: bool, goals: seq<G>)
    requires ApproachesHaveStates(o, applyOpt)
    ensures forall k :: 0 <= k < |SuccessfulApproaches(o, applyOpt, goals)| ==>
              |SuccessfulApproaches(o, applyOpt, goals)[k].path| > 0
  {
    var r := SuccessfulApproaches(o, applyOpt, goals);
    forall k | 0 <= k < |r|
      ensures |r[k].path| > 0
    {
      assert PlanApproachForGoal(o, applyOpt, goals[r[k].goal]) == Some(r[k].path);
    }
  }

  /** planApproaches: the loop over the goals that appends each approach found. */
  method PlanApproaches<S, G>(o: ShellOracles<S, G>, applyOpt: bool, goals: seq<G>)
    returns (approaches: seq<Approach<S>>)
    ensures approaches == SuccessfulApproaches(o, applyOpt, goals)
  {
    approaches := [];
    for i := 0 to |goals|
      invariant approaches == SuccessfulApproaches(o, applyOpt, goals[..i])
    {
      assert goals[..i + 1][..i] == goals[..i];
      var approach := PlanApproachForGoal(o, applyOpt, goals[i]);
      if approach.Some? {
        approaches := approaches + [Approach(i, approach.value)];
      }
    }
    assert goals[..|goals|] == goals;
  }

  // ---------------------------------------------------------------------------
  // computeApproachOrdering and planFirstApproach

  predicate GoalIndicesValid<S>(approaches: seq<Approach<S>>, goalCount: nat) {
    forall k :: 0 <= k < |approaches| ==> approaches[k].goal < goalCount
  }

  /**
   * computeApproachOrdering: tsp_open_end over the approaches, with the
   * shell's predicted path lengths as start and in-between costs.
   */
  function ComputeApproachOrdering<S, G>(o: ShellOracles<S, G>, start: S, goals: seq<G>,
                                         approaches: seq<Approach<S>>): (r: seq<nat>)
    requires GoalIndicesValid(approaches, |goals|)
    ensures OrderingOracleValid(o) && |approaches| > 0 ==> |r| > 0 && AllBelow(r, |approaches|)
  {
    var fromStart := (i: nat) requires i < |approaches| =>
      o.predictFromState(start, goals[approaches[i].goal]);
    var between := (i: nat, j: nat) requires i < |approaches| && j < |approaches| =>
      o.predictBetween(goals[approaches[i].goal], goals[approaches[j].goal]);
    o.tspOpenEnd(fromStart, between, |approaches|)
  }

  /**
   * planFirstApproach: a real path from the start state to the first state
   * of the approach, with the whole approach appended.
   */
  function PlanFirstApproach<S, G>(o: ShellOracles<S, G>, start: S, approachPath: seq<S>): (r: Option<seq<S>>)
    requires |approachPath| > 0
    ensures r.None? <==> o.stateToState(start, approachPath[0]).None?
    ensures r.Some? ==> (&& |approachPath| <= |r.value|
                         && r.value[..|r.value| - |approachPath|] == o.stateToState(start, approachPath[0]).value
                         && r.value[|r.value| - |approachPath|..] == approachPath)
    ensures r.Some? ==> Last(r.value) == Last(approachPath)
  {
    var startToShell := o.stateToState(start, approachPath[0]);
    if startToShell.Some? then Some(startToShell.value + approachPath) else None
  }

  // ---------------------------------------------------------------------------
  // retreat_move_probe and assembleFullPath

  /**
   * retreat_move_probe: back out of goal a along its approach, move along
   * the shell to goal b, then follow the approach of b.
   */
  function RetreatMoveProbe<S, G>(o: ShellOracles<S, G>, goals: seq<G>, a: Approach<S>, b: Approach<S>)
    : (r: seq<S>)
    requires a.goal < |goals| && b.goal < |goals|
    requires |a.path| > 0 && |b.path| > 0
    ensures |r| == |a.path| + |o.pathOnShell(goals[a.goal], goals[b.goal])| + |b.path|
    ensures r[..|a.path|] == Reverse(a.path)
    ensures r[|a.path|..|r| - |b.path|] == o.pathOnShell(goals[a.goal], goals[b.goal])
    ensures r[|r| - |b.path|..] == b.path
    ensures r[0] == Last(a.path) && Last(r) == Last(b.path)
  {
    Reverse(a.path) + o.pathOnShell(goals[a.goal], goals[b.goal]) + b.path
  }

  /** What assembleFullPath needs: a non-empty ordering of valid approaches. */
  predicate AssemblyInputs<S, G>(goals: seq<G>, approaches: seq<Approach<S>>, ordering: seq<nat>) {
    && |ordering| > 0
    && AllBelow(ordering, |approaches|)
    && GoalIndicesValid(approaches, |goals|)
    && forall k :: 0 <= k < |approaches| ==> |approaches[k].path| > 0
  }

  /** The stitched segment that leads from approach ordering[i-1] to approach ordering[i]. */
  function Stitch<S, G>(o: ShellOracles<S, G>, goals: seq<G>, approaches: seq<Approach<S>>,
                        ordering: seq<nat>, i: nat): seq<S>
    requires AssemblyInputs(goals, approaches, ordering) && 1 <= i < |ordering|
  {
    o.optimize(RetreatMoveProbe(o, goals, approaches[ordering[i - 1]], approaches[ordering[i]]))
  }

  /**
   * The first count segments assembleFullPath pushes: the initial approach,
   * then one stitched segment per consecutive pair of the ordering. Every
   * segment carries the goal of approaches[ordering[0]], as in the source.
   */
  function TourSegments<S, G>(o: ShellOracles<S, G>, goals: seq<G>, approaches: seq<Approach<S>>,
                              ordering: seq<nat>, initial: seq<S>, count: nat)
    : (r: seq<PathSegment<S>>)
    requires AssemblyInputs(goals, approaches, ordering) && 1 <= count <= |ordering|
    ensures |r| == count
    ensures r[0] == PathSegment(approaches[ordering[0]].goal, initial)
    ensures forall i :: 1 <= i < count ==>
              r[i] == PathSegment(approaches[ordering[0]].goal, Stitch(o, goals, approaches, ordering, i))
  {
    if count == 1 then [PathSegment(approaches[ordering[0]].goal, initial)]
    else
      TourSegments(o, goals, approaches, ordering, initial, count - 1)
      + [PathSegment(approaches[ordering[0]].goal, Stitch(o, goals, approaches, ordering, count - 1))]
  }

  /** assembleFullPath: push the first leg, then one stitched segment per later approach. */
  method AssembleFullPath<S, G>(o: ShellOracles<S, G>, goals: seq<G>, approaches: seq<Approach<S>>,
                                ordering: seq<nat>, result: PlanResult<S>, initialApproach: seq<S>)
    returns (r: PlanResult<S>)
    requires AssemblyInputs(goals, approaches, ordering)
    ensures r.segments == result.segments
              + TourSegments(o, goals, approaches, ordering, initialApproach, |ordering|)
  {
    var segments := result.segments + [PathSegment(approaches[ordering[0]].goal, initialApproach)];
    for i := 1 to |ordering|
      invariant segments == result.segments + TourSegments(o, goals, approaches, ordering, initialApproach, i)
    {
      var segmentPath := RetreatMoveProbe(o, goals, approaches[ordering[i - 1]], approaches[ordering[i]]);
      segmentPath := o.optimize(segmentPath);
      segments := segments + [PathSegment(approaches[ordering[0]].goal, segmentPath)];
    }
    r := PlanResult(segments);
  }

  /** optimize keeps a path non-empty and keeps its first and last states. */
  ghost predicate OptimizeKeepsEndpoints<S(!new), G>(o: ShellOracles<S, G>) {
    forall p :: |p| > 0 ==> |o.optimize(p)| > 0 && o.optimize(p)[0] == p[0] && Last(o.optimize(p)) == Last(p)
  }

  /**
   * If optimize keeps endpoints, the tour is connected. Each stitched segment
   * starts where the previous segment ended, and segment i ends at the goal
   * state of approach ordering[i].
   */
  lemma TourConnected<S(!new), G>(o: ShellOracles<S, G>, goals: seq<G>, approaches: seq<Approach<S>>,
                            ordering: seq<nat>, initial: seq<S>)
    requires AssemblyInputs(goals, approaches, ordering)
    requires |initial| > 0 && Last(initial) == Last(approaches[ordering[0]].path)
    requires OptimizeKeepsEndpoints(o)
    ensures var segs := TourSegments(o, goals, approaches, ordering, initial, |ordering|);
            && (forall i :: 0 <= i < |segs| ==>
                  |segs[i].path| > 0 && Last(segs[i].path) == Last(approaches[ordering[i]].path))
            && (forall i :: 0 <= i < |segs| - 1 ==> Last(segs[i].path) == segs[i + 1].path[0])
  {
    var segs := TourSegments(o, goals, approaches, ordering, initial, |ordering|);
    forall i | 1 <= i < |segs|
      ensures |segs[i].path| > 0
      ensures segs[i].path[0] == Last(approaches[ordering[i - 1]].path)
      ensures Last(segs[i].path) == Last(approaches[ordering[i]].path)
    {
      var probe := RetreatMoveProbe(o, goals, approaches[ordering[i - 1]], approaches[ordering[i]]);
      assert segs[i].path == o.optimize(probe);
    }
  }

  // ---------------------------------------------------------------------------
  // plan

  /** What plan returns, as a function of the oracles, the start and the goals. */
  function PlanOutcome<S, G(!new)>(o: ShellOracles<S, G>, applyOpt: bool, start: S, goals: seq<G>): PlanResult<S>
    requires ApproachesHaveStates(o, applyOpt) && OrderingOracleValid(o)
  {
    var approaches := SuccessfulApproaches(o, applyOpt, goals);
    if |approaches| == 0 then PlanResult([])
    else
      ApproachPathsNonEmpty(o, applyOpt, goals);
      var ordering := ComputeApproachOrdering(o, start, goals, approaches);
      var firstApproach := PlanFirstApproach(o, start, approaches[ordering[0]].path);
      if firstApproach.None? then PlanResult([])
      else PlanResult(TourSegments(o, goals, approaches, ordering, firstApproach.value, |ordering|))
  }

  /**
   * ShellPathPlanner::plan, with the shell already built. The oracle
   * contracts are the assertion of planApproaches and the shape of the
   * tsp_open_end result, which plan indexes at 0.
   */
  method Plan<S, G(!new)>(o: ShellOracles<S, G>, applyOpt: bool, start: S, goals: seq<G>)
    returns (result: PlanResult<S>)
    requires ApproachesHaveStates(o, applyOpt) && OrderingOracleValid(o)
    ensures result == PlanOutcome(o, applyOpt, start, goals)
    ensures |SuccessfulApproaches(o, applyOpt, goals)| == 0 ==> result.segments == []
  {
    var approaches := PlanApproaches(o, applyOpt, goals);
    result := PlanResult([]);
    if |approaches| == 0 {
      return;
    }
    ApproachPathsNonEmpty(o, applyOpt, goals);
    var ordering := ComputeApproachOrdering(o, start, goals, approaches);
    var firstApproach := PlanFirstApproach(o, start, approaches[ordering[0]].path);
    if firstApproach.None? {
      return;
    }
    result := AssembleFullPath(o, goals, approaches, ordering, result, firstApproach.value);
  }

  /**
   * The outcomes of plan: no segments when no approach is found or the first
   * leg fails; otherwise one segment per ordered approach, all tagged with
   * the goal of the first ordered approach.
   */
  lemma PlanShape<S, G(!new)>(o: ShellOracles<S, G>, applyOpt: bool, start: S, goals: seq<G>)
    requires ApproachesHaveStates(o, applyOpt) && OrderingOracleValid(o)
    ensures var approaches := SuccessfulApproaches(o, applyOpt, goals);
            var segs := PlanOutcome(o, applyOpt, start, goals).segments;
            && (|approaches| == 0 ==> segs == [])
            && (|approaches| > 0 ==>
                 var ordering := ComputeApproachOrdering(o, start, goals, approaches);
                 && |ordering| > 0 && AllBelow(ordering, |approaches|)
                 && (segs == [] <==> o.stateToState(start, approaches[ordering[0]].path[0]).None?)
                 && (segs != [] ==> (&& |segs| == |ordering|
                                     && forall i :: 0 <= i < |segs| ==> segs[i].goal == approaches[ordering[0]].goal)))
  {
    var approaches := SuccessfulApproaches(o, applyOpt, goals);
    if |approaches| > 0 {
      ApproachPathsNonEmpty(o, applyOpt, goals);
      var ordering := ComputeApproachOrdering(o, start, goals, approaches);
      AssembledShape(o, start, goals, approaches, ordering);
    }
  }

  /** The segments assembled after a successful first leg: one per ordered approach, all with the first goal. */
  lemma AssembledShape<S, G>(o: ShellOracles<S, G>, start: S, goals: seq<G>,
                             approaches: seq<Approach<S>>, ordering: seq<nat>)
    requires AssemblyInputs(goals, approaches, ordering)
    ensures var first := PlanFirstApproach(o, start, approaches[ordering[0]].path);
            first.Some? ==>
              var segs := TourSegments(o, goals, approaches, ordering, first.value, |ordering|);
              && segs != [] && |segs| == |ordering|
              && forall i :: 0 <= i < |segs| ==> segs[i].goal == approaches[ordering[0]].goal
  {
    var first := PlanFirstApproach(o, start, approaches[ordering[0]].path);
    if first.Some? {
      var segs := TourSegments(o, goals, approaches, ordering, first.value, |ordering|);
      forall i | 0 <= i < |segs|
        ensures segs[i].goal == approaches[ordering[0]].goal
      {
        if i > 0 {
          assert segs[i] == PathSegment(approaches[ordering[0]].goal, Stitch(o, goals, approaches, ordering, i));
        }
      }
    }
  }

  /**
   * If optimize keeps endpoints, a non-empty plan is a connected path: each
   * segment starts where the previous one ends, and segment i ends at the
   * end of the approach to the goal visited i-th.
   */
  lemma PlanConnected<S(!new), G(!new)>(o: ShellOracles<S, G>, applyOpt: bool, start: S, goals: seq<G>)
    requires ApproachesHaveStates(o, applyOpt) && OrderingOracleValid(o)
    requires OptimizeKeepsEndpoints(o)
    ensures var approaches := SuccessfulApproaches(o, applyOpt, goals);
            var segs := PlanOutcome(o, applyOpt, start, goals).segments;
            segs != [] ==>
              var ordering := ComputeApproachOrdering(o, start, goals, approaches);
              && |segs| == |ordering| && AllBelow(ordering, |approaches|)
              && (forall i :: 0 <= i < |segs| ==>
                    |segs[i].path| > 0 && Last(segs[i].path) == Last(approaches[ordering[i]].path))
              && (forall i :: 0 <= i < |segs| - 1 ==> Last(segs[i].path) == segs[i + 1].path[0])
  {
    var approaches := SuccessfulApproaches(o, applyOpt, goals);
    if |approaches| > 0 {
      ApproachPathsNonEmpty(o, applyOpt, goals);
      var ordering := ComputeApproachOrdering(o, start, goals, approaches);
      var firstApproach := PlanFirstApproach(o, start, approaches[ordering[0]].path);
      if firstApproach.Some? {
        TourConnected(o, goals, approaches, ordering, firstApproach.value);
      }
    }
  }

  /**
   * With exactly one reachable goal and an ordering oracle that returns [0]
   * for a single item, the plan has at most one segment. That segment ends
   * at the end of the approach to that goal and is tagged with it.
   */
  lemma PlanSingleReachableGoal<S, G(!new)>(o: ShellOracles<S, G>, applyOpt: bool, start: S, goals: seq<G>)
    requires ApproachesHaveStates(o, applyOpt) && OrderingOracleValid(o)
    requires forall f, g :: o.tspOpenEnd(f, g, 1) == [0]
    requires |SuccessfulApproaches(o, applyOpt, goals)| == 1
    ensures var a := SuccessfulApproaches(o, applyOpt, goals)[0];
            var segs := PlanOutcome(o, applyOpt, start, goals).segments;
            |segs| <= 1
            && (|segs| == 1 ==> segs[0].goal == a.goal && Last(segs[0].path) == Last(a.path))
  {
    var approaches := SuccessfulApproaches(o, applyOpt, goals);
    ApproachPathsNonEmpty(o, applyOpt, goals);
    var ordering := ComputeApproachOrdering(o, start, goals, approaches);
    assert ordering == [0];
  }
}
