/**
 * The point-to-point wrapper around a single-query OMPL planner. It builds
 * the goal for a list of targets and gives the planner the query. It sets
 * the planner up once, solves, and accepts only exact solutions. The
 * winning target is the first one in list order whose neighbourhood
 * contains the final end-effector position. Afterwards it clears the query.
 *
 * Robot states W, target positions P and planner states S are abstract.
 * The solver, the state conversion, the end-effector position, the distance
 * between positions and the trajectory length are oracles.
 */
module PointToPoint {
  import opened Wrappers
  import opened Paths

  /** ompl::base::PlannerStatus. */
  datatype PlannerStatus =
    | Unknown | InvalidStart | InvalidGoal | UnrecognizedGoalType
    | Timeout | ApproximateSolution | ExactSolution | Crash | Abort

  /** DroneEndEffectorNearTarget: reached when the end effector is closer than radius to target. */
  datatype NearTarget<P> = NearTarget(radius: real, target: P)

  /** The goal handed to the planner: one near-target region or a union of them. */
  datatype Goal<P> = Single(region: NearTarget<P>) | Union(subgoals: seq<NearTarget<P>>)

  datatype ProblemDefinition<S, P> = ProblemDefinition(start: S, goal: Goal<P>)

  /** What solve reports: the status and, for a solution, the path found. */
  datatype SolveOutput<S> = SolveOutput(status: PlannerStatus, solution: seq<S>)

  /** PointToPointPlanResult as the source fills it in. */
  datatype PointToPointPlanResult<W, P> =
    PointToPointPlanResult(solutionLength: real, trajectory: seq<W>, endEffectorTarget: P, ithTarget: nat)

  /**
   * The outcome of planPointToPoint. AssertionFailure stands for the
   * failing assert on an exact solution that reaches no target.
   */
  datatype PlanOutcome<W, P> = Found(result: PointToPointPlanResult<W, P>) | NotFound | AssertionFailure

  /** One near-target region per target, in target order. */
  function NearTargets<P>(radius: real, targets: seq<P>): (r: seq<NearTarget<P>>)
    ensures |r| == |targets|
    ensures forall i :: 0 <= i < |targets| ==> r[i] == NearTarget(radius, targets[i])
  {
    if targets == [] then [] else NearTargets(radius, targets[..|targets| - 1]) + [NearTarget(radius, targets[|targets| - 1])]
  }

  /** The goal constructUnionGoal builds for the targets. */
  function UnionGoal<P>(radius: real, targets: seq<P>): (g: Goal<P>)
    ensures g.Single? <==> |targets| == 1
    ensures g.Single? ==> g.region == NearTarget(radius, targets[0])
    ensures g.Union? ==> |g.subgoals| == |targets|
                         && forall i :: 0 <= i < |targets| ==> g.subgoals[i] == NearTarget(radius, targets[i])
  {
    if |targets| == 1 then Single(NearTarget(radius, targets[0])) else Union(NearTargets(radius, targets))
  }

  /** The robot states of a planner path, one per path state, in path order. */
  function RobotStates<S, W>(toRobotState: S -> W, path: seq<S>): (r: seq<W>)
    ensures |r| == |path|
    ensures forall i :: 0 <= i < |path| ==> r[i] == toRobotState(path[i])
  {
    if path == [] then [] else RobotStates(toRobotState, path[..|path| - 1]) + [toRobotState(path[|path| - 1])]
  }

  /** The index of the first target within radius of position, if any. */
  function FirstWithin<P>(distance: (P, P) -> real, radius: real, targets: seq<P>, position: P): (r: Option<nat>)
    ensures r.Some? ==> r.value < |targets| && distance(targets[r.value], position) < radius
    ensures r.Some? ==> forall j :: 0 <= j < r.value ==> !(distance(targets[j], position) < radius)
    ensures r.None? <==> forall j :: 0 <= j < |targets| ==> !(distance(targets[j], position) < radius)
  {
    if targets == [] then None
    else if distance(targets[0], position) < radius then Some(0)
    else
      match FirstWithin(distance, radius, targets[1..], position)
      case Some(k) => Some(k + 1)
      case None => None
  }

  /** PointToPointPlanner: the wrapped planner's set-up flag and current query. */
  class PointToPointPlanner<W, P, S> {
    /** planner_->isSetup(). */
    var isSetup: bool
    /** The problem definition the planner holds, if any. */
    var problem: Option<ProblemDefinition<S, P>>
    /** How many times setup has run. */
    ghost var setupCount: nat

    /** planner_->solve with a time limit, as a function of the query. */
    const solve: (ProblemDefinition<S, P>, real) -> SolveOutput<S>
    /** DroneStateSpace::copyToOMPLState. */
    const toPlannerState: W -> S
    /** DroneStateSpace::copyToRobotState. */
    const toRobotState: S -> W
    /** The translation of the end_effector link in a robot state. */
    const endEffector: W -> P
    /** The norm of the difference of two positions. */
    const distance: (P, P) -> real
    /** Trajectory::getLength. */
    const trajectoryLength: seq<W> -> real
    /** GOAL_END_EFFECTOR_RADIUS. */
    const radius: real

    constructor (alreadySetup: bool,
                 solve: (ProblemDefinition<S, P>, real) -> SolveOutput<S>,
                 toPlannerState: W -> S, toRobotState: S -> W, endEffector: W -> P,
                 distance: (P, P) -> real, trajectoryLength: seq<W> -> real, radius: real)
      ensures isSetup == alreadySetup && problem == None && setupCount == 0
      ensures this.solve == solve && this.toPlannerState == toPlannerState
      ensures this.toRobotState == toRobotState && this.endEffector == endEffector
      ensures this.distance == distance && this.trajectoryLength == trajectoryLength
      ensures this.radius == radius
    {
      isSetup := alreadySetup;
      problem := None;
      setupCount := 0;
      this.solve := solve;
      this.toPlannerState := toPlannerState;
      this.toRobotState := toRobotState;
      this.endEffector := endEffector;
      this.distance := distance;
      this.trajectoryLength := trajectoryLength;
      this.radius := radius;
    }

    /** constructProblemDefinition: the start state converted for the planner, and the goal. */
    function ProblemFor(start: W, goal: Goal<P>): ProblemDefinition<S, P>
    {
      ProblemDefinition(toPlannerState(start), goal)
    }

    /**
     * What planPointToPoint returns for a start state, targets and time
     * limit: nothing unless the solution is exact, otherwise the first
     * target within radius of the final end-effector position.
     */
    function ExpectedOutcome(start: W, targets: seq<P>, maxTime: real): (r: PlanOutcome<W, P>)
      requires SolutionsNonEmpty(start, targets, maxTime)
      ensures var out := solve(ProblemFor(start, UnionGoal(radius, targets)), maxTime);
              r.NotFound? <==> out.status != ExactSolution
      ensures var out := solve(ProblemFor(start, UnionGoal(radius, targets)), maxTime);
              r.Found? ==>
                var trajectory := RobotStates(toRobotState, out.solution);
                var position := endEffector(Last(trajectory));
                && out.status == ExactSolution
                && r.result.ithTarget < |targets|
                && distance(targets[r.result.ithTarget], position) < radius
                && (forall j :: 0 <= j < r.result.ithTarget ==> !(distance(targets[j], position) < radius))
                && r.result.endEffectorTarget == targets[r.result.ithTarget]
                && r.result.trajectory == trajectory
                && r.result.solutionLength == trajectoryLength(trajectory)
      ensures var out := solve(ProblemFor(start, UnionGoal(radius, targets)), maxTime);
              r.AssertionFailure? <==>
                && out.status == ExactSolution
                && forall j :: 0 <= j < |targets| ==>
                     !(distance(targets[j], endEffector(Last(RobotStates(toRobotState, out.solution)))) < radius)
    {
      var out := solve(ProblemFor(start, UnionGoal(radius, targets)), maxTime);
      if out.status != ExactSolution then NotFound
      else
        var trajectory := RobotStates(toRobotState, out.solution);
        match FirstWithin(distance, radius, targets, endEffector(Last(trajectory)))
        case Some(i) => Found(PointToPointPlanResult(trajectoryLength(trajectory), trajectory, targets[i], i))
        case None => AssertionFailure
    }

    /** An exact solution path has at least one state, so the trajectory has a last waypoint. */
    predicate SolutionsNonEmpty(start: W, targets: seq<P>, maxTime: real) {
      var out := solve(ProblemFor(start, UnionGoal(radius, targets)), maxTime);
      out.status == ExactSolution ==> |out.solution| > 0
    }

    method SetProblemDefinition(pdef: ProblemDefinition<S, P>)
      modifies this
      ensures problem == Some(pdef) && isSetup == old(isSetup) && setupCount == old(setupCount)
    {
      problem := Some(pdef);
    }

    method Setup()
      modifies this
      ensures isSetup && problem == old(problem) && setupCount == old(setupCount) + 1
    {
      isSetup := true;
      setupCount := setupCount + 1;
    }

    /** clearQuery: drop the problem definition, keep the set-up planner. */
    method ClearQuery()
      modifies this
      ensures problem == None && isSetup == old(isSetup) && setupCount == old(setupCount)
    {
      problem := None;
    }

    /** constructUnionGoal: a plain goal for one target, otherwise a union in target order. */
    method ConstructUnionGoal(targets: seq<P>) returns (goal: Goal<P>)
      ensures goal == UnionGoal(radius, targets)
    {
      if |targets| == 1 {
        return Single(NearTarget(radius, targets[0]));
      }
      var subgoals: seq<NearTarget<P>> := [];
      for i := 0 to |targets|
        invariant subgoals == NearTargets(radius, targets[..i])
      {
        assert targets[..i + 1][..i] == targets[..i];
        subgoals := subgoals + [NearTarget(radius, targets[i])];
      }
      assert targets[..|targets|] == targets;
      goal := Union(subgoals);
    }

    /** convertTrajectory: one waypoint per path state, in path order. */
    method ConvertTrajectory(path: seq<S>) returns (trajectory: seq<W>)
      ensures trajectory == RobotStates(toRobotState, path)
    {
      trajectory := [];
      for i := 0 to |path|
        invariant trajectory == RobotStates(toRobotState, path[..i])
      {
        assert path[..i + 1][..i] == path[..i];
        trajectory := trajectory + [toRobotState(path[i])];
      }
      assert path[..|path|] == path;
    }

    /**
     * planPointToPoint for a list of targets. The planner is set up only if
     * it was not, and the query is cleared on every path.
     */
    method PlanPointToPoint(start: W, targets: seq<P>, maxTime: real) returns (outcome: PlanOutcome<W, P>)
      requires SolutionsNonEmpty(start, targets, maxTime)
      modifies this
      ensures outcome == ExpectedOutcome(start, targets, maxTime)
      ensures isSetup && problem == None
      ensures setupCount == old(setupCount) + (if old(isSetup) then 0 else 1)
    {
      var goal := ConstructUnionGoal(targets);
      var result: Option<PointToPointPlanResult<W, P>> := None;
      var pdef := ProblemFor(start, goal);
      SetProblemDefinition(pdef);
      if !isSetup {
        Setup();
      }
      var out := solve(problem.value, maxTime);
      if out.status == ExactSolution {
        var trajectory := ConvertTrajectory(out.solution);
        var position := endEffector(trajectory[|trajectory| - 1]);
        for i := 0 to |targets|
          invariant result.None?
          invariant forall j :: 0 <= j < i ==> !(distance(targets[j], position) < radius)
        {
          var target := targets[i];
          if distance(target, position) < radius {
            result := Some(PointToPointPlanResult(trajectoryLength(trajectory), trajectory, target, i));
            assert FirstWithin(distance, radius, targets, position) == Some(i);
            break;
          }
        }
        outcome := if result.Some? then Found(result.value) else AssertionFailure;
      } else {
        result := None;
        outcome := NotFound;
      }
      ClearQuery();
    }

    /** planPointToPoint for one target: the list overload on a one-element list. */
    method PlanPointToPointSingle(start: W, target: P, maxTime: real) returns (outcome: PlanOutcome<W, P>)
      requires SolutionsNonEmpty(start, [target], maxTime)
      modifies this
      ensures outcome == ExpectedOutcome(start, [target], maxTime)
      ensures isSetup && problem == None
      ensures setupCount == old(setupCount) + (if old(isSetup) then 0 else 1)
    {
      var targets := [target];
      outcome := PlanPointToPoint(start, targets, maxTime);
    }

    /**
     * For one target the goal is the plain near-target region, and a result
     * found is for index 0 and that target.
     */
    lemma SingleTargetOutcome(start: W, target: P, maxTime: real)
      requires SolutionsNonEmpty(start, [target], maxTime)
      ensures UnionGoal(radius, [target]) == Single(NearTarget(radius, target))
      ensures var r := ExpectedOutcome(start, [target], maxTime);
              r.Found? ==> r.result.ithTarget == 0 && r.result.endEffectorTarget == target
    {
    }
  }
}
