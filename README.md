# Action dependency graph engine of mobile-AGV-optimization

This project is a Dafny model of the core of a multi-robot (AGV) execution
framework. Path plans come in as time-stamped waypoints and are turned into an
**action dependency graph (ADG)**:

- every robot gets a chain of action nodes, linked by type-1 edges;
- an all-pairs scan adds inter-robot type-2 dependencies.

The type-2 edges are then grouped into **dependency groups**: chains of edges
between one pair of robots that run in the same or in opposite directions. Each
group gets its reverse edges.

A closed-loop simulation then runs epoch by epoch. In each epoch:

1. A re-ordering step decides, for every group that is still switchable, whether
   to keep or reverse it. The step first partitions the groups into switchable
   and fixed, then builds the mixed-integer problem's variables and precedence
   constraints. The solver is an oracle. Last, the step rewrites the ADG's
   type-2 edges.
2. The ADG is checked for a cycle.
3. The set of delayed robots is refreshed.
4. Every robot whose predecessors are all finished marks its node finished and
   advances one node.
5. Every robot is charged one time unit until it is done.

The modules follow the program's files:

| module | file | what it holds |
|---|---|---|
| `AdgNodes` | `adg_node.dfy` | node identities `(robot, index)`, edges, waypoints, statuses and the node constructor |
| `Robots` | `robot.dfy` | the robot state machine (`Step`) and the `Robot` class whose `Advance` follows it |
| `DependencyGroups` | `dependency_group.dfy` | group values, the extension rules, the reverse-edge formula, and the `DependencyGroup` class |
| `Graphs` | `graph.dfy` | the ADG as a `Graph` object with a node map and two edge sets, predecessors, and a cycle check |
| `AdgBuild` | `adg_build.dfy` | graph construction (chains, type-2 scan), the robot plans, and the unmerged plans for the deadlock run |
| `AdgAnalysis` | `adg_analysis.dfy` | the greedy grouping of type-2 edges and the reverse-edge pass |
| `Milp` | `milp.dfy` | the re-ordering step: positions, the switchability partition, variables and precedences, the failure paths, and the rewrite |
| `Driver` | `driver.dfy` | the epoch loop, on values (`Turn`, `Pass`, `EpochStep`, `Run`) and on the objects (`Simulate`, proved equal to `Run`) |

Node names of the form `p_<robot>_<index>` are modelled as the datatype
`NodeId(robot, idx)`. The string arithmetic on them becomes index arithmetic.
The index is an `int` because a reverse edge can name index `-1`.

Imperative code stays imperative, with loops and invariants. Each method is
proved equal to a specification function on values (`Scan`, `Classify`,
`MilpStep`, `Pass`, `Run`). The lemmas state the properties of those functions.

## Model

| member | source | states |
|---|---|---|
| AdgNodes.NewNode | python/functions/adg_node.py:13-23 | a new node takes its time from the waypoint's `t`, its start cell from the waypoint and its goal cell from the next waypoint; start and goal cells are equal exactly when the two waypoints share coordinates; every node starts staged |
| Robots.Start | python/functions/robot.py:16-26 | the state right after construction is consistent with the plan: the index is inside the plan and the current node is the plan node at that index |
| Robots.Step | python/functions/robot.py:47-66 | one `advance` keeps the state consistent with the plan: the index stays inside the plan, the current node is the plan node at that index, the goal is shown only on the last node, and done is set only after the goal was shown |
| Robots.Steps | python/functions/robot.py:47-66 | any number of `advance` calls keeps the state consistent with the plan |
| Robots.StepsFromStart | python/functions/robot.py:16-66 | starting from construction, after `n < len` advances the robot is on node `n` at its position; after `len` advances it has shown the goal; it is done exactly from advance `len + 1` on |
| Robots.DoneIsFinal | python/functions/robot.py:61-66 | once done, `advance` keeps the robot done and changes nothing more on a second call |
| Robots.Robot.constructor | python/functions/robot.py:5-26 | the robot holds its plan, starts in the `Start` state with zero delay, and has one travel time per plan node |
| Robots.Robot.IncreaseDelay | python/functions/robot.py:40-41 | the delay grows by exactly the given amount |
| Robots.Robot.DelayIncTimestep | python/functions/robot.py:43-45 | the delay drops by one only when it is positive, so a non-negative delay stays non-negative |
| Robots.Robot.Advance | python/functions/robot.py:47-66 | the object's new state is `Step` of its old state, the state stays consistent with the plan, and the delay is left as it was |
| Robots.Robot.RemainingPlan | python/functions/robot.py:68-75 | the remaining plan is the plan from the current index on: it is never empty, starts with the current node and ends with the goal node |
| Robots.Robot.RemainingTimesToNextNode | python/functions/robot.py:71-72 | there is one remaining travel time per remaining plan node |
| DependencyGroups.ReverseAll | python/functions/adg_dependency_group.py:72-108 | there is one reverse edge per edge, in order: `(a,i)->(b,j)` gives `(b,j+1)->(a,i-1)` |
| DependencyGroups.ReverseAllInvolution | python/functions/adg_dependency_group.py:95-97 | applying the per-edge reverse formula twice gives back the original edge, and likewise for a whole edge list |
| DependencyGroups.ChainIndices | python/functions/adg_dependency_group.py:40-41 | edge `k` of a group runs from the blocking robot's node `first+k` to the blocked robot's node `first±k`: `+k` in a same group, `-k` in an opposite group |
| DependencyGroups.FirstHeadIsClosest | python/functions/adg_dependency_group.py:28 | `first_edge_head` is one of the group's heads, and no head of the group has a smaller index |
| DependencyGroups.NewGroupShaped | python/functions/adg_dependency_group.py:19-28 | a new group is a one-edge single chain, with the blocking and blocked robots and the first tail and head taken from its edge |
| DependencyGroups.ExtendSameKeepsShape | python/functions/adg_dependency_group.py:33-51 | a same-extension is accepted exactly when the group is not opposite and the edge shifts both ends of the last edge by +1; accepting appends the edge and makes the group same; rejecting changes nothing |
| DependencyGroups.ExtendOppositeKeepsShape | python/functions/adg_dependency_group.py:53-70 | an opposite-extension is accepted exactly when the group is not same and the edge shifts the tail by +1 and the head by -1; accepting appends the edge, makes the group opposite and moves `first_edge_head` to the edge's head; rejecting changes nothing |
| DependencyGroups.DependencyGroup.constructor | python/functions/adg_dependency_group.py:19-28 | the object's value is the new one-edge group, and it is chain-shaped |
| DependencyGroups.DependencyGroup.NextEdgeSame | python/functions/adg_dependency_group.py:33-51 | the returned flag and the new value are those of the same-extension rule |
| DependencyGroups.DependencyGroup.NextEdgeOpposite | python/functions/adg_dependency_group.py:53-70 | the returned flag and the new value are those of the opposite-extension rule; a falsy return counts as a rejection |
| DependencyGroups.DependencyGroup.DetermineReverse | python/functions/adg_dependency_group.py:72-108 | the per-edge reverses of all edges are appended to `reverse_edges`, in order, whatever the group type; nothing else changes |
| Graphs.Graph.constructor | python/functions/adg.py:70 | the graph starts with exactly the given nodes and edges |
| Graphs.Predecessors | python/main_ECBS.py:179 | `p` is a predecessor of `n` exactly when the edge `p -> n` is in the graph |
| Graphs.Peel | python/main_ECBS.py:161-167 | repeatedly removing source nodes gets stuck on a non-empty set exactly when the graph restricted to that set has a closed walk |
| Graphs.FindCycle | python/main_ECBS.py:161-167 | the cycle check answers true exactly when the edge set has a closed directed walk |
| AdgBuild.MoveIndices | python/functions/adg.py:91-93 | lists exactly the waypoint indices, except the last, at which the robot changes cell |
| AdgBuild.MoveIndicesIncreasing | python/functions/adg.py:91-93 | the move indices are strictly increasing |
| AdgBuild.RobotNodes | python/functions/adg.py:91-102 | a robot's nodes are numbered `0..n-1` with no gap |
| AdgBuild.RobotNodesFromMoves | python/functions/adg.py:91-98 | node `k` is built from the `k`-th waypoint at which the robot moves and the waypoint after it, so a run of waypoints on one cell contributes only its last waypoint |
| AdgBuild.RobotNodesPrefix | python/functions/adg.py:91-102 | nodes added later never change the nodes added before |
| AdgBuild.RobotChain | python/functions/adg.py:91-109 | a robot's graph nodes are numbered `0..n-1`; a one-waypoint plan gives exactly one node, whose start and goal cells are equal and whose time is the waypoint's |
| AdgBuild.NoNodesIffStationary | python/functions/adg.py:91-109 | a robot gets no node exactly when its plan has at least two waypoints and it never changes cell |
| AdgBuild.RobotPlanShape | python/functions/adg.py:83-96 | the robot plan lists node ids `0..n-1` and, for each, the cell of the waypoint it was built from; it is empty for a one-waypoint plan |
| AdgBuild.HeadsForMembers | python/functions/adg.py:132-138 | the edges found from `(a,i)` into robot `b` are exactly those to the scanned nodes of `b` that `(a,i)` matches |
| AdgBuild.OthersForMembers | python/functions/adg.py:126-138 | the edges found from `(a,i)` are exactly those to the non-last nodes of every other robot that `(a,i)` matches |
| AdgBuild.TailsForMembers | python/functions/adg.py:121-143 | the edges found from robot `a` are exactly those from its scanned nodes to non-last matching nodes of other robots |
| AdgBuild.ScanUpToMembers | python/functions/adg.py:120-143 | the edges found from the first robots are exactly the dependencies whose tail robot is among them |
| AdgBuild.ScanMembers | python/functions/adg.py:120-143 | an edge `a -> b` is added exactly when the robots differ, neither node is the last of its chain, `a` starts where `b` ends, and `a`'s time is at most `b`'s |
| AdgBuild.SuccessorIffNotLast | python/functions/adg.py:123-124 | while type-2 edges leave only non-last nodes, a node has a successor exactly when it is not the last of its chain; this is why the scan's `while` loops stop before the last node |
| AdgBuild.HeadOnHasNoDependency | python/functions/adg.py:120-143 | two robots swapping the ends of a three-cell corridor head-on get no type-2 edge at all |
| AdgBuild.AddChain | python/functions/adg.py:81-112 | after one robot's pass its nodes and chain edges are all in the graph, its robot plan is recorded, and no type-2 edge is added |
| AdgBuild.AddMovingNodes | python/functions/adg.py:91-102 | the loop adds one node per move and one edge from each node to the next, and records the robot plan of node ids and start cells |
| AdgBuild.ScanHeads | python/functions/adg.py:132-138 | the inner `while` adds exactly the edges of `HeadsFor`, in scan order, and nothing else changes |
| AdgBuild.ScanOthers | python/functions/adg.py:126-138 | the loop over the other robots adds exactly the edges of `OthersFor`, or reports the first robot without nodes |
| AdgBuild.ScanOther | python/functions/adg.py:127-131 | robot `a` itself is skipped; a robot whose start node is missing is reported; otherwise its heads are scanned |
| AdgBuild.ScanRobot | python/functions/adg.py:121-143 | one tail robot's `while` adds exactly the edges of `TailsFor`, or reports the first robot without nodes |
| AdgBuild.AddDependencies | python/functions/adg.py:115-143 | the type-2 edges become exactly `Scan`, found in scan order, or the scan reports the first robot without nodes |
| AdgBuild.AddChains | python/functions/adg.py:73-112 | every robot's chain, robot plan and goal are added in order; the loop stops at the first plan without waypoints |
| AdgBuild.DetermineAdg | python/functions/adg.py:51-155 | an empty plan is an error exactly when there is one, and the first one is named; a robot without nodes is the missing-node error; otherwise the graph has exactly the chain nodes and edges, the type-2 edges are exactly `Scan` in scan order, and the robot plans and goals are those of each plan |
| AdgBuild.AlwaysMovingNodes | python/functions/adg.py:91-98 | a robot that moves at every step gets node `k` from waypoints `k` and `k+1` |
| AdgBuild.MergedEqualsUnmergedWhenAlwaysMoving | python/functions/adg.py:281-293 | when a robot moves at every step, the merged and the unmerged robot plans are equal |
| AdgBuild.DetermineRobotPlans | python/functions/adg.py:242-309 | an empty plan is an error exactly when there is one, and the first one is named; otherwise every robot plan is the unmerged plan, one node id per waypoint but the last, with no merging of waiting steps, and the goal is the last waypoint |
| AdgAnalysis.ExtendedUnreversed | python/functions/adg.py:191-197 | a group that takes an edge gets exactly that edge appended, and stays chain-shaped, without reverse edges and in its original direction |
| AdgAnalysis.FirstAccepting | python/functions/adg.py:188-197 | returns the first group, in creation order, that takes the edge; every earlier group refuses it |
| AdgAnalysis.Offer | python/functions/adg.py:186-202 | offering an edge keeps every group chain-shaped, without reverse edges and in its original direction |
| AdgAnalysis.OfferFirstWins | python/functions/adg.py:187-202 | the first accepting group in creation order is extended and every other group is untouched; if no group accepts, a new group is appended |
| AdgAnalysis.OfferAddsEdge | python/functions/adg.py:186-202 | offering an edge adds exactly that edge to the groups' edges |
| AdgAnalysis.Classify | python/functions/adg.py:186-202 | the grouping produces chain-shaped groups, and never more groups than edges |
| AdgAnalysis.ClassifyPartition | python/functions/adg.py:186-202 | counted with multiplicity, the groups' edges are exactly the input type-2 edges: each edge is in exactly one group |
| AdgAnalysis.GroupsAreChains | python/functions/adg.py:186-202 | in every group, all tails are on the blocking robot, all heads are on the blocked robot, and tail indices go up by one per edge |
| AdgAnalysis.AnalyzeAdg | python/functions/adg.py:183-208 | returns one fresh, distinct group object per group of `Classify` on the type-2 edges, each holding that group with its reverse edges |
| AdgAnalysis.PlaceEdge | python/functions/adg.py:186-202 | one pass of the grouping loop keeps the existing objects, turns their values into `Offer` of their old values, and appends fresh objects for any new group |
| AdgAnalysis.OfferTo | python/functions/adg.py:191-197 | a group takes the edge exactly when one of the two extension rules accepts it; the same-extension is tried first |
| AdgAnalysis.ReverseGroups | python/functions/adg.py:206-208 | every group gets its reverse edges |
| AdgAnalysis.AnalyzedReverse | python/functions/adg.py:206-208 | after the analysis, every group's reverse edges are the per-edge reverses of its edges, one for one, in order |
| Milp.DecisionOf | python/functions/milp_formulation.py:334-345 | a solver value is neither one nor zero exactly when it lies between `0.00001` and `0.999999999999999` |
| Milp.PositionsAt | python/functions/milp_formulation.py:35-37 | every robot gets an entry in the position map; one whose id no later robot repeats maps to its own current node |
| Milp.LiveAt | python/functions/milp_formulation.py:97-101 | every robot gets an entry in the variable map; one whose id no later robot repeats has a time variable for exactly the nodes of its remaining plan |
| Milp.CollectPositions | python/functions/milp_formulation.py:35-37 | the loop builds exactly the position map |
| Milp.DefineVariables | python/functions/milp_formulation.py:91-101 | the loop builds exactly the time-variable map: one variable per remaining-plan node per robot |
| Milp.CheckGroup | python/functions/milp_formulation.py:46-74 | reports whether the current-node lookups succeed, and if they do, whether the group is switchable |
| Milp.GroupsPartitioned | python/functions/milp_formulation.py:44-80 | every group goes into exactly one of the switchable and the fixed lists; the switchable list holds exactly the switchable groups; both keep input order |
| Milp.PartitionGroups | python/functions/milp_formulation.py:44-80 | the loop produces the switchable and the fixed selections of the groups, or reports a failed lookup |
| Milp.Guarded | python/functions/milp_formulation.py:126-150 | there is one precedence per edge, in order, from its tail to its head, under the given guard |
| Milp.LiveEdges | python/functions/milp_formulation.py:161-168 | keeps exactly the edges whose two endpoints have time variables |
| Milp.FixedPrecedencesLive | python/functions/milp_formulation.py:152-183 | every constraint of a fixed group joins two nodes that have time variables and holds unconditionally, so the fixed part never raises |
| Milp.EdgeConstraints | python/functions/milp_formulation.py:126-150 | succeeds exactly when every endpoint has a time variable, and then yields one guarded precedence per edge |
| Milp.SwitchableConstraints | python/functions/milp_formulation.py:119-150 | succeeds exactly when every switchable group's lookups succeed; group `k` gets binary variable `k`, with its edges guarded by `k` kept and its reverse edges by `k` switched |
| Milp.LiveEdgeConstraints | python/functions/milp_formulation.py:155-168 | an edge with a missing variable is skipped; the others give unconditional precedences |
| Milp.FixedConstraints | python/functions/milp_formulation.py:152-183 | each fixed group contributes the live edges of its current direction, unconditionally |
| Milp.FixedEdgesMembers | python/functions/milp_formulation.py:319-326 | an edge is put back for the fixed groups exactly when some fixed group has it in its current direction |
| Milp.SwitchedEdgesMembers | python/functions/milp_formulation.py:329-346 | an edge is put back for the switchable groups exactly when, for some group `k` whose variable came back binary, the edge is in the direction that variable chose |
| Milp.DecidedInstalls | python/functions/milp_formulation.py:333-345 | a value of one installs the reverse edges and clears `original_direction`; zero installs the edges and sets it; a non-binary value leaves the group unchanged |
| Milp.AddEdges | python/functions/milp_formulation.py:322-326 | the edge set grows by exactly the given edges |
| Milp.RewriteFixed | python/functions/milp_formulation.py:319-327 | the fixed groups put back exactly their edges in their current direction |
| Milp.DecideGroup | python/functions/milp_formulation.py:334-345 | one group's direction and contributed edges follow the decision of its variable's value |
| Milp.RewriteSwitchable | python/functions/milp_formulation.py:329-346 | group `k` is decided by binary variable `k` and contributes the edges of its chosen direction |
| Milp.Redecide | python/functions/milp_formulation.py:329-346 | gives one value per group; its meaning is stated by `RedecideDirections` and `RewrittenEdges` |
| Milp.SolveMilp | python/functions/milp_formulation.py:29-346 | the method's outcome, new type-2 edges and new group values are exactly those of the step function `MilpStep` on the old state |
| Milp.ReorderGroups | python/functions/milp_formulation.py:85-346 | once the groups are split, the outcome, edges and groups are those of `Reorder` |
| Milp.BuildProblem | python/functions/milp_formulation.py:91-188 | the problem has one variable per remaining-plan node, one binary variable per switchable group, and the switchable then the fixed precedences; it fails exactly when a switchable group's lookup fails |
| Milp.ApplyDecisions | python/functions/milp_formulation.py:308-346 | every old type-2 edge is dropped and exactly the fixed groups' edges plus the decided switchable groups' edges are put back; every group's value is its redecided value |
| Milp.StepOutcomes | python/functions/milp_formulation.py:29-31 | with `run` false the step reports that it did not run; any outcome other than solved leaves the type-2 edges and every group unchanged; a solved step changes only groups' directions |
| Milp.RedecideDirections | python/functions/milp_formulation.py:329-346 | the rewrite changes only `original_direction`, and only for switchable groups |
| Milp.RewrittenEdges | python/functions/milp_formulation.py:308-346 | after a solve, the type-2 edges are exactly the edges every counted group has in its new direction; a group counts when it is fixed or its variable came back binary |
| Milp.SwitchableGuards | python/functions/milp_formulation.py:121-150 | the switchable constraints are exactly those of each group `k` under binary variable `k` |
| Milp.GroupGuards | python/functions/milp_formulation.py:126-150 | a group's constraints are exactly one per edge guarded by its variable being kept, and one per reverse edge guarded by its variable being switched |
| Milp.LiveOnChain | python/functions/milp_formulation.py:97-101 | a node of a robot's chain at or ahead of its current node has a time variable |
| Milp.SwitchableLookupsSucceed | python/functions/milp_formulation.py:51-64 | in a switchable group whose reverse edges come from the reverse formula, every endpoint of every edge and reverse edge has a time variable, so its lookups cannot raise |
| Driver.Turn | python/main_ECBS.py:176-194 | a robot's turn that succeeds leaves every robot consistent with its plan |
| Driver.Pass | python/main_ECBS.py:176-194 | the turns of all robots, in list order, keep every robot consistent with its plan |
| Driver.TurnNodes | python/main_ECBS.py:178-189 | a successful turn found data for the robot's node and its predecessors; the robot advances by one `Step` and its node is marked finished exactly when the epoch is not the first, all its predecessors are finished, and it is not delayed; otherwise nothing changes; nodes only ever become finished |
| Driver.TurnRobot | python/main_ECBS.py:186-194 | a turn touches only its own robot, which takes at most one step, is charged one epoch unless done, and is recorded as done when it is |
| Driver.PassNodes | python/main_ECBS.py:176-189 | a pass only marks nodes finished, and none at all in epoch 0; the type-2 edges, groups and delay set are untouched |
| Driver.PassRobot | python/main_ECBS.py:176-194 | in a pass each robot takes at most one step, is charged one epoch unless done, and is recorded as done once it is |
| Driver.TurnMoved | python/main_ECBS.py:181-189 | a robot that moves in its turn was not delayed, the epoch was not the first, and its node and all its predecessors are then finished |
| Driver.PassMoved | python/main_ECBS.py:176-189 | a robot moves in a pass only when the epoch is not the first and it is not delayed; by the end of the pass the node it left and every predecessor of that node are finished, so nodes finished earlier count for robots later in the list |
| Driver.EpochStep | python/main_ECBS.py:134-194 | an epoch that continues leaves every robot consistent with its plan |
| Driver.Run | python/main_ECBS.py:132-206 | a completed run reports the sum of the times to goal; it stops no later than the timeout, and before the timeout only when every robot is done |
| Driver.EpochChecks | python/main_ECBS.py:140-174 | an epoch goes on only with a solved step and an acyclic re-ordered ADG; it needs a non-zero delay amount, and uses the step's edges and groups and the delay set in force; a deadlock is reported exactly for a cyclic re-ordered ADG |
| Driver.NotRunAborts | python/main_ECBS.py:146-150 | with re-ordering switched off, an unfinished run stops in its first epoch as `Aborted`, the source's early `return 0` |
| Driver.EpochCharges | python/main_ECBS.py:191-194 | an epoch charges every robot at most one time unit, and a done robot stays done |
| Driver.CompletedRun | python/main_ECBS.py:132-206 | over a completed run, each robot is charged at most one time unit per epoch, and once done stays done |
| Driver.DependenciesMet | python/main_ECBS.py:179-183 | reports whether every predecessor has data, and then whether all of them are finished |
| Driver.NodesKnown | python/main_ECBS.py:141-142 | reports whether every robot's current node has data |
| Driver.TakeTurn | python/main_ECBS.py:178-194 | one robot's turn on the objects is `Turn` on the values |
| Driver.StepRobot | python/main_ECBS.py:176-194 | after robot `i`'s turn, the objects hold the pass state after `i + 1` turns |
| Driver.AdvanceRobots | python/main_ECBS.py:176-194 | the loop over the robots on the objects is `Pass` on the values |
| Driver.MoveOn | python/main_ECBS.py:170-194 | a zero delay amount fails before any robot moves; otherwise the delay set is redrawn only when `k % delay_amount == 0`, and the robots' turns follow `Pass` with that set |
| Driver.ScreenEpoch | python/main_ECBS.py:140-167 | the checks before any robot moves, on the objects, are `Screen`, and a passing epoch holds the re-ordered edges and groups |
| Driver.TurnsOfEpoch | python/main_ECBS.py:170-197 | after the checks, the rest of the epoch on the objects ends as `EpochStep` does |
| Driver.RunEpoch | python/main_ECBS.py:135-200 | one epoch on the objects is `EpochStep` on the values |
| Driver.TotalTime | python/main_ECBS.py:204-206 | the total is the sum of the times to goal |
| Driver.Simulate | python/main_ECBS.py:132-206 | for any integer delay amount, starting with no time charged, no robot done and no robot delayed, the loop's result is `Run` from epoch 0 |
| Driver.DelaySetSign | python/main_ECBS.py:170 | a negative delay amount redraws the delayed robots in exactly the epochs its absolute value does, since Python's floor remainder by `-d` is zero exactly when `d` divides the epoch |
| Driver.DelayPeriod | python/main_ECBS.py:170-173 | epoch `q * abs(d) + r` with `0 <= r < abs(d)` draws a fresh delay set when `r == 0` and keeps the previous one otherwise |
| Driver.ZeroDelayNeverCompletes | python/main_ECBS.py:132-173 | with a zero delay amount, a run that still has work never completes: the remainder test raises in the first epoch that passes the checks |

## Left out

- The mixed-integer program's numbers are not modelled. These are the continuous lower bounds (progress `0.14`, `eps`, the uncertainty bound), the Big-M coefficients, and the objective functions. Precedences keep only their endpoints and guard.
- The solver is a parameter that either raises or returns a value for every binary variable. Its optimality is not modelled, and neither is the returned status or solve time.
- Milp.SolveMilp: a solve that returns without values is not modelled. This happens for an infeasible problem or after the 600-second limit; every `.x` is then `None`, and the `try` at `python/functions/milp_formulation.py:290-304` does not catch it. The comparison at `python/functions/milp_formulation.py:334` then raises a type error whenever a switchable group exists, after every type-2 edge has already been removed.
- Logging, `print`, timing, argument parsing, YAML output and visualisation are left out, including `draw_ADG` and the `show_graph` plots.
- The random choice of delayed robots is the parameter `draws`: any set per epoch.
- The graph library is replaced by a node map and two edge sets.
  - `find_cycle` is the compiled check `FindCycle`, proved equal to the existence of a closed walk.
  - The reversed view of the ADG, taken without copying, is read as the predecessors in the current edge set.
- The type-2 edge list that the grouping consumes is the scan's discovery order. This is the library's edge order for a freshly built graph.
- `analyze_ADG` also builds a reversed graph that is not used afterwards, and returns the graph's own node list and type-1 edges. Only the groups are modelled as its result.
- Node names are structured `(robot, index)` values, not strings. The node label, plot position and info string are left out.
- Robot colour, the position getters and `goal_reached_animate` as an animation flag are not modelled; the flag is kept as `goalShown`.
- `main_ECBS` numbers its robots `0..n-1`, and the driver assumes this. Repeated robot ids are handled only where the re-ordering step builds its maps.
- A reverse edge can name a node that does not exist, such as index `-1`. The graph library creates such a node without data. The model has no such node, so a later lookup of its data is the `Crashed` outcome.
- The status `ENQUEUED` is declared but never set by the core, so no operation produces it.
- Robots.Robot.constructor: requires a plan with at least one node, where the source raises an index error. A single-waypoint plan gives such an empty robot plan.
- Robots.Robot.constructor: does not model the branch for `current_idx == plan_length`. Right after construction the index is 0, so that branch cannot run.
- Robots.Robot.IncreaseDelay: states no bound on the delay, because the source accepts any amount.
- Milp.Redecide: its own contract states only the length. What it means is stated by `Milp.RedecideDirections` and `Milp.RewrittenEdges`.
- AdgAnalysis.Classify: its own contract states only the chain shape and a bound. What it means is stated by `AdgAnalysis.ClassifyPartition`, `AdgAnalysis.OfferFirstWins` and `AdgAnalysis.GroupsAreChains`.
- Driver.Simulate: the robots, groups and graph are taken as already built. The setup before the loop, which constructs the `Robot` objects from the robot plans, is not modelled as one method.

## Notes on the code's behaviour

- The per-edge reverse formula, `(a,i)->(b,j)` to `(b,j+1)->(a,i-1)`, is an involution: `DependencyGroups.ReverseAllInvolution`.
- Two robots swapping the ends of a three-cell corridor head-on get no type-2 edge: `AdgBuild.HeadOnHasNoDependency`. Each robot has two nodes, the scan skips last nodes, and neither first node starts where the other ends.
- A single-waypoint robot gets one staged node in the graph and an empty robot plan, and constructing its `Robot` then fails: `AdgBuild.RobotPlanShape` and the `Robots.Robot.constructor` precondition.
- The loop checks the re-ordered ADG for a cycle in every epoch and raises on one, so an epoch goes on only with an acyclic ADG: `Driver.EpochChecks`.
- A binary variable that comes back neither 0 nor 1 is only logged. Its group keeps its direction and puts back no edge at all, because every type-2 edge was removed first: `Milp.RewrittenEdges`.
- With re-ordering switched off, the step returns no status and the loop returns 0 in its first epoch: `Driver.NotRunAborts`. So a run without optimisation never simulates anything.
- The delay amount is read from the command line unchecked. Zero makes the remainder test raise (`Driver.ZeroDelayNeverCompletes`), and a negative amount acts like its absolute value (`Driver.DelaySetSign`).
