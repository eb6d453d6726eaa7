# Multi-goal tour planner core, in Dafny

This project models the ordering and stitching logic of a multi-goal
motion planner for a drone-mounted arm that visits fruit targets. Four
pieces are modelled:

* **Ordering strategies** (`TravelingSalesman`, over `Permutations`):
  * the heuristic cost of a visiting order;
  * the greedy nearest-neighbour order, built with a `visited` array and an index list;
  * the front end of the OR-tools strategy. It builds an (n+2)×(n+2) integer cost matrix in thousandths, with a synthetic start node `n` and a zero-cost end node `n+1`, then walks the solver's route and drops the two synthetic nodes.
* **Shell-path planner** (`ShellPath`, over `Paths`). It plans one approach per goal from a sphere-like "shell" and drops goals that fail. It orders the approaches using shell-predicted costs and plans a real first leg. It then stitches "retreat along approach a, move on the shell, probe along approach b" segments.
* **Point-to-point wrapper** (`PointToPoint`). A class holds the wrapped planner's set-up flag and its current query. It builds a single or union goal, sets up at most once and accepts only exact solutions. It picks the first target, in list order, within the end-effector radius and always clears the query.
* **k-nearest-neighbour baseline** (`Knn`). A worklist loop over a multiset of unvisited targets removes exactly one target per iteration. It keeps the shortest successful candidate plan, the earliest on ties.

States, goals, positions and apples are type parameters. Every external
collaborator is an uninterpreted function: the OMPL planner's `solve`, the
shell, the single-goal planner methods, the path optimizers, `tsp_open_end`,
the routing solver, the nearest-neighbour structure and `extendTrajectory`.
Paths and trajectories are sequences of states. Costs are reals compared
with `<`. An `INFINITY` sentinel is a `found` flag or a `Length.Infinity`
value.

Where a collaborator's behaviour matters for a property, the lemma or method
takes an explicit hypothesis about it, for example:

* `SolverReturnsOpenRoutes`: the routing solver returns a route that visits every node once;
* `OrderingOracleValid`: `tsp_open_end` returns a non-empty list of indices in range;
* `ExtendKeepsWaypoints`: `extendTrajectory` keeps a trajectory non-empty;
* `NearestKValid`: `nearestK` returns between 1 and k members of the set;
* `OptimizeKeepsEndpoints`: an optimized path starts and ends where the original did.

Notes on the source's behaviour:

* Every segment that `assembleFullPath` pushes carries the goal index of `approaches[ordering[0]]`, not the goal it ends at (src/planners/ShellPathPlanner.cpp:61, 80-83).
* With exactly one reachable goal, and when `tsp_open_end` returns `[0]` for a single item, the plan has at most one segment: the first leg to that goal can still fail, and then there are no segments (`ShellPath.PlanSingleReachableGoal`).
* Consecutive segments are connected only when `optimize` keeps the endpoints of a path. The connectivity lemmas take that as a hypothesis.
* The `PointToPointPlanResult` struct shown in src/multi_goal_planners.h:18-21 has only `solution_length` and the trajectory. The wrapper fills in `endEffectorTarget` and `ith_target` as well (src/multigoal/PointToPointPlanner.cpp:61-66), so the model's result record has all four fields.

The constants `TravelingSalesman.GreedyName` (`"greedy"`,
src/traveling_salesman.cpp:51-53), `TravelingSalesman.ORToolsName`
(`"OR-tools"`, src/traveling_salesman.cpp:91-93), `ShellPath.PlannerName`
(`"ShellPathPlanner"`, src/planners/ShellPathPlanner.cpp:202-204) and
`Knn.CandidateGoalRadius` (`0.2`, src/multigoal/knn.cpp:40-42) carry the
names and the constant radius of the source.

## Model

| member | source | states |
|---|---|---|
| TravelingSalesman.OrderingHeuristicCost | src/traveling_salesman.cpp:8-18 | The running sum equals `start_to_apple` of the first ordered apple plus `apple_to_apple` over the consecutive pairs among the first \|apples\| entries. It needs 1 <= \|apples\| <= \|ordering\|, with those entries in range. |
| TravelingSalesman.HeuristicCostIgnoresTail | src/traveling_salesman.cpp:13 | The loop bound is \|apples\|, so two orderings that agree on their first \|apples\| entries have the same cost. |
| TravelingSalesman.HeuristicCostNonNegative | src/traveling_salesman.cpp:8-18 | With non-negative heuristics the estimated tour cost is non-negative. |
| TravelingSalesman.FirstApple | src/traveling_salesman.cpp:58-60 | The first apple is the index in 1..n-1 of least `start_to_apple`, earliest on ties. Index 0 is never chosen. |
| TravelingSalesman.FirstAppleUnique | src/traveling_salesman.cpp:58-60 | The first-apple condition determines a single index. |
| TravelingSalesman.NearestUnvisited | src/traveling_salesman.cpp:70-81 | The inner scan returns an unvisited index whose `apple_to_apple` distance from the last ordered apple is minimal, and the lowest such index, because the test is strict `<`. |
| TravelingSalesman.GreedyOrdering | src/traveling_salesman.cpp:55-89 | For n >= 2 the result is a permutation of 0..n-1 that contains every apple. Its first element is the first apple, and every later element is the nearest unvisited apple from its predecessor. |
| TravelingSalesman.GreedyOrderingUnique | src/traveling_salesman.cpp:55-89 | Any two orderings that meet the greedy condition are equal, so the strategy is deterministic in its costs. |
| TravelingSalesman.MilliUnits | src/traveling_salesman.cpp:106 | `(int64_t)(x*1000.0)` truncates toward zero: the floor of 1000x for x >= 0 and the ceiling for x < 0. |
| TravelingSalesman.BuildDistanceMatrix | src/traveling_salesman.cpp:99-128 | The matrix is (n+2)×(n+2). Its top-left block is the truncated thousandths of `apple_to_apple`. Row and column n are the truncated `start_to_apple` values, mirrored, and entry (n, n) is 0. Row and column n+1 are all 0. |
| TravelingSalesman.DistanceMatrixSymmetric | src/traveling_salesman.cpp:99-128 | With a symmetric `apple_to_apple` the built matrix is symmetric. |
| TravelingSalesman.WithoutSyntheticNodes | src/traveling_salesman.cpp:145-155 | A node is kept exactly when it is on the route and is neither n nor n+1, and, for a route over nodes below n+2, every kept index is below n. |
| TravelingSalesman.WithoutSyntheticNodesDistinct | src/traveling_salesman.cpp:145-155 | Dropping nodes keeps a repetition-free route repetition-free. |
| TravelingSalesman.ExtractOrdering | src/traveling_salesman.cpp:145-155 | The route walk gives the route's nodes in route order with the two synthetic nodes removed. |
| TravelingSalesman.ExtractedPermutation | src/traveling_salesman.cpp:145-155 | A route from n that visits every node except n+1 exactly once yields a permutation of 0..n-1. |
| TravelingSalesman.ORToolsOrdering | src/traveling_salesman.cpp:96-158 | The ordering is the extracted route of the solver's answer on the cost matrix, with start n and end n+1. It never contains n or n+1. When the solver returns open routes it is a permutation of 0..n-1. |
| Paths.Reverse | src/planners/ShellPathPlanner.cpp:98 | `reverse` keeps the length and puts state \|p\|-1-i at position i. |
| ShellPath.PlanApproachForGoal | src/planners/ShellPathPlanner.cpp:170-191 | There is no approach exactly when `state_to_goal` from the goal's shell state fails. `optimizeExit` is applied only when the option is set and a path exists. |
| ShellPath.SuccessfulApproaches | src/planners/ShellPathPlanner.cpp:146-168 | Each approach is the successful `planApproachForGoal` result of its goal. Goal indices are below \|goals\| and strictly increasing, and there are at most \|goals\| approaches. |
| ShellPath.ApproachesComplete | src/planners/ShellPathPlanner.cpp:154-161 | Every goal whose approach succeeds is among the approaches. |
| ShellPath.ApproachPathsNonEmpty | src/planners/ShellPathPlanner.cpp:156 | Under the assertion that found approaches have states, every approach path is non-empty. |
| ShellPath.PlanApproaches | src/planners/ShellPathPlanner.cpp:146-168 | The goal loop returns exactly the successful approaches. |
| ShellPath.ComputeApproachOrdering | src/planners/ShellPathPlanner.cpp:126-144 | Under the ordering-oracle contract, the order over the approaches is non-empty and indexes the approaches. |
| ShellPath.PlanFirstApproach | src/planners/ShellPathPlanner.cpp:110-124 | It fails exactly when `state_to_state(start, approach[0])` fails. On success it is that path followed by the whole approach, so it ends at the approach's last state. |
| ShellPath.RetreatMoveProbe | src/planners/ShellPathPlanner.cpp:90-108 | The segment is reverse(a) followed by `path_on_shell(a, b)` and then b. It starts at the last state of a and ends at the last state of b. |
| ShellPath.TourSegments | src/planners/ShellPathPlanner.cpp:61-85 | There are exactly \|ordering\| segments. Segment 0 is the first leg, and segment i is the optimized stitch from ordering[i-1] to ordering[i]. All of them carry the goal of `approaches[ordering[0]]`. |
| ShellPath.AssembleFullPath | src/planners/ShellPathPlanner.cpp:52-88 | The loop appends exactly those tour segments to the segments already in the result. |
| ShellPath.TourConnected | src/planners/ShellPathPlanner.cpp:52-108 | If `optimize` keeps endpoints, segment i ends where the approach of ordering[i] ends, and each segment starts where the previous one ended. |
| ShellPath.Plan | src/planners/ShellPathPlanner.cpp:22-50 | `plan` returns the specified outcome, and no segments when no approach is found. |
| ShellPath.PlanShape | src/planners/ShellPathPlanner.cpp:33-49 | There are no segments when no approach is found. Otherwise the plan is empty exactly when the first leg fails; if not empty, it has one segment per ordered approach, all tagged with the first ordered goal. |
| ShellPath.PlanConnected | src/planners/ShellPathPlanner.cpp:22-88 | If `optimize` keeps endpoints, a non-empty plan is a connected path whose i-th segment ends at the i-th ordered approach's goal state. |
| ShellPath.PlanSingleReachableGoal | src/planners/ShellPathPlanner.cpp:33-49 | With one reachable goal, and when `tsp_open_end` returns `[0]` for a single item, the plan has at most one segment. That segment is tagged with that goal and ends where its approach ends. |
| PointToPoint.NearTargets | src/multigoal/PointToPointPlanner.cpp:101-107 | One near-target region per target, in target order, all with the same radius. |
| PointToPoint.UnionGoal | src/multigoal/PointToPointPlanner.cpp:96-111 | There is a plain goal exactly for one target. Otherwise there is a union with one sub-goal per target, in input order. |
| PointToPoint.RobotStates | src/multigoal/PointToPointPlanner.cpp:121-124 | One waypoint per path state, in path order. |
| PointToPoint.FirstWithin | src/multigoal/PointToPointPlanner.cpp:58-69 | It returns the smallest index whose target is within the radius, or nothing exactly when no target is. |
| PointToPoint.PointToPointPlanner.constructor | src/multigoal/PointToPointPlanner.cpp:10-13 | A new wrapper holds no query and keeps its collaborators. |
| PointToPoint.PointToPointPlanner.ExpectedOutcome | src/multigoal/PointToPointPlanner.cpp:23-94 | The solver runs on the problem of constructProblemDefinition (the converted start state and the union goal). The result is empty exactly when the status is not an exact solution. An exact solution gives the first target within the radius of the final end-effector position, including its index, the converted trajectory and its length. There is an assertion failure exactly when no target qualifies. |
| PointToPoint.PointToPointPlanner.SetProblemDefinition | src/multigoal/PointToPointPlanner.cpp:34-35 | The planner now holds the query, and nothing else changes. |
| PointToPoint.PointToPointPlanner.Setup | src/multigoal/PointToPointPlanner.cpp:38 | The planner is set up, and the query is kept. |
| PointToPoint.PointToPointPlanner.ClearQuery | src/multigoal/PointToPointPlanner.cpp:78 | The query is gone, and the set-up state is kept. |
| PointToPoint.PointToPointPlanner.ConstructUnionGoal | src/multigoal/PointToPointPlanner.cpp:96-111 | The loop builds the goal specified by `UnionGoal`. |
| PointToPoint.PointToPointPlanner.ConvertTrajectory | src/multigoal/PointToPointPlanner.cpp:113-127 | The loop builds one waypoint per path state, in order. |
| PointToPoint.PointToPointPlanner.PlanPointToPoint | src/multigoal/PointToPointPlanner.cpp:23-94 | It sets the query and calls `solve` on it (lines 34-42), and the outcome is `ExpectedOutcome`. Afterwards the planner is set up and holds no query, and setup ran once if it was not set up before, else not at all. |
| PointToPoint.PointToPointPlanner.PlanPointToPointSingle | src/multigoal/PointToPointPlanner.cpp:15-21 | It behaves as the list overload on a one-element list, with the same state changes. |
| PointToPoint.PointToPointPlanner.SingleTargetOutcome | src/multigoal/PointToPointPlanner.cpp:15-21 | For one target the goal is the plain region, and a result found is index 0 with that target. |
| Knn.BestIndex | src/multigoal/knn.cpp:35-55 | The chosen candidate has a successful plan of minimal `solution_length`. Every earlier successful candidate is strictly longer. There is none exactly when no candidate plan succeeds. |
| Knn.BestCandidate | src/multigoal/knn.cpp:35-55 | The inner loop, with `INFINITY` as the initial bound, keeps exactly that candidate's plan and target. |
| Knn.KnnStep | src/multigoal/knn.cpp:29-63 | An iteration removes exactly one element, and it is a member of the candidate list and of the set. A success appends the winning segment and extends the trajectory with the winning plan. A failure removes `knn[0]` and leaves the trajectory and segments unchanged. |
| Knn.KnnSteps | src/multigoal/knn.cpp:27-66 | After m iterations, m targets are gone and the old segments are a prefix of the new ones. At most m segments were added, and if none was, the trajectory is unchanged. |
| Knn.UnvisitedSet | src/multigoal/knn.cpp:18-20 | The set holds exactly the targets, with multiplicity. |
| Knn.Iteration | src/multigoal/knn.cpp:29-63 | One loop body performs exactly one `KnnStep`. |
| Knn.Plan | src/multigoal/knn.cpp:10-75 | It starts with every target unvisited and the start state as the only waypoint (lines 13-23). The loop runs exactly \|targets\| iterations and empties the set. The result is the state after \|targets\| steps, and the label is `KnnName(k)`. |
| Knn.KnnRunEmptiesSet | src/multigoal/knn.cpp:27-66 | The final set is empty and there are at most \|targets\| segments. With no segments the trajectory is just the start state. |
| Knn.Decimal | src/multigoal/knn.cpp:69 | `os << k` writes non-empty decimal digits with no leading zero. |
| Knn.DecimalRoundTrip | src/multigoal/knn.cpp:69 | Reading the digits back gives k. |
| Knn.KnnName | src/multigoal/knn.cpp:68-72 | The label is the decimal digits of k followed by `"-NN"`. |

## Left out

- I/O is left out: console output, JSON statistics and `parameters()` (src/planners/ShellPathPlanner.cpp:193-200). Wall-clock timing (src/multigoal/PointToPointPlanner.cpp:41-47) is also left out, since none of it affects the results modelled.
- Cancellation (`checkPtc`, src/planners/ShellPathPlanner.cpp:163) is not modelled. It is called only for its effect on control flow, and its body is not part of this model.
- The shell builder and the `OMPLSphereShellWrapper` construction are not part of the model: the shell is fixed for one call through `ShellOracles`.
- Floating point is replaced by exact reals. `INFINITY` is a flag or `Length.Infinity`, with finite costs and lengths assumed. `int64_t` overflow of the matrix entries is not modelled.
- The OR-tools routing model, its search parameters and the successor-chain walk through `NextVar` are abstracted. The solver is a function from the matrix, the start node and the end node to the node sequence the walk visits.
- OMPL's `solve`, `tsp_open_end`, the GNAT structure and the path optimizers are deterministic functions in this model, although the real ones may be randomized or time-dependent.
- `GOAL_END_EFFECTOR_RADIUS` and `MAX_TIME_PER_TARGET_SECONDS` are defined in headers that are not part of this model, so they are parameters (`radius`, `timeBudget`).
- The free function `planPointToPoint` that the KNN planner calls and `extendTrajectory` have no body here; they are oracles of `Knn.KnnOracles`.
- The distance heuristics (src/traveling_salesman.cpp:20-49 and src/DistanceHeuristics.cpp) are replaced by the two abstract cost functions of `DistanceHeuristics`.
- Also outside this model: the experiment runner (threads, locks, JSON files, shuffling), the visualizer, the clearance objective, the random-order and PRM-based planners, and the union-goal KNN variant.
- TravelingSalesman.GreedyOrdering: requires at least two apples. With fewer, the source dereferences the end of an empty `min_element` range.
- TravelingSalesman.ORToolsOrdering: proves the permutation only when the solver returns open routes, and states nothing about the optimality of the route.
- TravelingSalesman.ORToolsOrdering: the modelled solver always returns a route. The source dereferences `solution` (src/traveling_salesman.cpp:142, 147) without checking for a null result, and the model does not capture a solver that finds no solution.
- ShellPath.PlanSingleReachableGoal: also assumes that `tsp_open_end` returns `[0]` for a single item. That function's body is not part of this model, and `OrderingOracleValid` alone allows `[0, 0]`, which gives two segments.
- ShellPath.ComputeApproachOrdering: constrains the result only under `OrderingOracleValid`. Which order `tsp_open_end` picks, and its cost-optimality, is not modelled.
- ShellPath.Plan: requires the assertion of planApproaches (found approaches have states) and the ordering-oracle contract, because the source indexes `ordering[0]` and `getState(0)` without checks.
- PointToPoint.PointToPointPlanner.PlanPointToPoint: requires an exact solution to have at least one state, because the source reads the last waypoint of the converted trajectory unchecked.
- Knn.Plan: requires k >= 1, which is stronger than the source needs. With k = 0 and no targets the source never enters the loop and returns the label `0-NN`; the model does not cover that call. With k = 0 and a target, the nearest-neighbour query returns no candidates, and the source then reads `knn[0]` of an empty list (src/multigoal/knn.cpp:62). The contents of the trajectory depend on `extendTrajectory` and stay abstract.
