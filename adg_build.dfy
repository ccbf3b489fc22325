/**
 * Construction of the action dependency graph from the planner's
 * time-stamped waypoints: one chain of action nodes per robot (type-1 edges)
 * and an all-pairs scan for inter-robot dependencies (type-2 edges).
 */
module AdgBuild {
  import opened AdgNodes
  import opened Graphs

  /** What the simulation needs of one robot: its node ids and their start cells. */
  datatype RobotPlan = RobotPlan(nodes: seq<NodeId>, positions: seq<Loc>)

  /**
   * The outcome of building the graph. `EmptyPlan` is the index error raised
   * when a plan has no waypoint; `MissingNode` is the graph library's error
   * when the scan asks for the neighbours of a node that was never added.
   */
  datatype BuildResult =
    | Built(adg: Graph, robotPlans: seq<RobotPlan>, goals: seq<Waypoint>, type2Order: seq<Edge>)
    | EmptyPlan(robot: nat)
    | MissingNode(node: NodeId)

  /** The robot changes cell between waypoint `idx` and the next one. */
  predicate Moves(p: seq<Waypoint>, idx: nat)
    requires idx + 1 < |p|
  {
    !(p[idx].x == p[idx + 1].x && p[idx].y == p[idx + 1].y)
  }

  /** The waypoint indices below `m` at which the robot moves, in increasing order. */
  function MoveIndices(p: seq<Waypoint>, m: nat): (ix: seq<nat>)
    requires m < |p|
    ensures forall k :: 0 <= k < |ix| ==> ix[k] < m
    ensures forall i :: 0 <= i < m ==> (i in ix <==> Moves(p, i))
  {
    if m == 0 then [] else MoveIndices(p, m - 1) + (if Moves(p, m - 1) then [m - 1] else [])
  }

  /** The move indices come in strictly increasing order. */
  lemma {:induction false} MoveIndicesIncreasing(p: seq<Waypoint>, m: nat)
    requires m < |p|
    ensures forall k, l :: 0 <= k < l < |MoveIndices(p, m)| ==> MoveIndices(p, m)[k] < MoveIndices(p, m)[l]
  {
    if m > 0 {
      MoveIndicesIncreasing(p, m - 1);
      var front := MoveIndices(p, m - 1);
      var ix := MoveIndices(p, m);
      assert ix == front + (if Moves(p, m - 1) then [m - 1] else []);
      forall k, l | 0 <= k < l < |ix|
        ensures ix[k] < ix[l]
      {
        assert ix[k] == front[k];
        if l == |front| {
          assert front[k] < m - 1;
        } else {
          assert ix[l] == front[l];
          assert front[k] < front[l];
        }
      }
    }
  }

  /** The action nodes robot `r` gets from the first `m` waypoints of its plan, as the loop adds them. */
  function RobotNodes(r: nat, p: seq<Waypoint>, m: nat): (ns: seq<AdgNode>)
    requires m < |p|
    ensures forall k :: 0 <= k < |ns| ==> ns[k].id == NodeId(r, k)
  {
    if m == 0 then
      []
    else
      var prev := RobotNodes(r, p, m - 1);
      prev + (if Moves(p, m - 1) then [NewNode(NodeId(r, |prev|), p[m - 1], p[m])] else [])
  }

  /**
   * Node `k` of a robot's chain is built from the `k`-th waypoint at which the
   * robot moves and the waypoint after it: a run of waypoints on one cell
   * contributes a node only for its last waypoint.
   */
  lemma {:induction false} RobotNodesFromMoves(r: nat, p: seq<Waypoint>, m: nat)
    requires m < |p|
    ensures |RobotNodes(r, p, m)| == |MoveIndices(p, m)|
    ensures forall k :: 0 <= k < |MoveIndices(p, m)| ==>
      RobotNodes(r, p, m)[k] == NewNode(NodeId(r, k), p[MoveIndices(p, m)[k]], p[MoveIndices(p, m)[k] + 1])
  {
    if m > 0 {
      RobotNodesFromMoves(r, p, m - 1);
      var prev, front := RobotNodes(r, p, m - 1), MoveIndices(p, m - 1);
      var ns, ix := RobotNodes(r, p, m), MoveIndices(p, m);
      if Moves(p, m - 1) {
        assert ns == prev + [NewNode(NodeId(r, |prev|), p[m - 1], p[m])];
        assert ix == front + [m - 1];
        forall k | 0 <= k < |ix|
          ensures ns[k] == NewNode(NodeId(r, k), p[ix[k]], p[ix[k] + 1])
        {
          if k < |front| {
            assert ns[k] == prev[k] && ix[k] == front[k];
          } else {
            assert ns[k] == NewNode(NodeId(r, |prev|), p[m - 1], p[m]) && ix[k] == m - 1;
          }
        }
      } else {
        assert ns == prev && ix == front;
      }
    }
  }

  /** Nodes added later never change the ones added before. */
  lemma {:induction false} RobotNodesPrefix(r: nat, p: seq<Waypoint>, m: nat, m': nat)
    requires m <= m' < |p|
    ensures |RobotNodes(r, p, m)| <= |RobotNodes(r, p, m')|
    ensures RobotNodes(r, p, m) == RobotNodes(r, p, m')[..|RobotNodes(r, p, m)|]
    decreases m' - m
  {
    if m < m' {
      RobotNodesPrefix(r, p, m, m' - 1);
    }
  }

  /**
   * The nodes robot `r` has in the graph. A plan of one waypoint gives one
   * node that stays on its cell; a plan with no waypoint gives none (the
   * builder stops with an error before it matters).
   */
  function RobotChain(r: nat, p: seq<Waypoint>): (ns: seq<AdgNode>)
    ensures forall k :: 0 <= k < |ns| ==> ns[k].id == NodeId(r, k)
    ensures |p| == 1 ==> |ns| == 1 && ns[0].sLoc == ns[0].gLoc && ns[0].time == p[0].t
  {
    if |p| == 0 then
      []
    else if |p| == 1 then
      [NewNode(NodeId(r, 0), p[0], p[0])]
    else
      RobotNodes(r, p, |p| - 1)
  }

  /**
   * A robot with a plan has no node exactly when its plan has at least two
   * waypoints and it never changes cell.
   */
  lemma NoNodesIffStationary(r: nat, p: seq<Waypoint>)
    requires |p| > 0
    ensures |RobotChain(r, p)| == 0 <==> |p| >= 2 && forall i :: 0 <= i < |p| - 1 ==> !Moves(p, i)
  {
    if |p| >= 2 {
      var m := |p| - 1;
      RobotNodesFromMoves(r, p, m);
      var ix := MoveIndices(p, m);
      assert |RobotChain(r, p)| == |ix|;
      if |ix| > 0 {
        assert ix[0] < m && ix[0] in ix;
        assert Moves(p, ix[0]);
      } else {
        forall i | 0 <= i < m
          ensures !Moves(p, i)
        {
          assert i !in ix;
        }
      }
    }
  }

  function Chains(plans: seq<seq<Waypoint>>): seq<seq<AdgNode>>
  {
    seq(|plans|, r requires 0 <= r < |plans| => RobotChain(r, plans[r]))
  }

  function Ids(ns: seq<AdgNode>): seq<NodeId>
  {
    seq(|ns|, k requires 0 <= k < |ns| => ns[k].id)
  }

  function Starts(ns: seq<AdgNode>): seq<Loc>
  {
    seq(|ns|, k requires 0 <= k < |ns| => ns[k].sLoc)
  }

  /** The plan handed to the simulation: the moving nodes only, never the node of a one-waypoint plan. */
  function RobotPlanOf(r: nat, p: seq<Waypoint>): RobotPlan
    requires |p| > 0
  {
    var ns := RobotNodes(r, p, |p| - 1);
    RobotPlan(Ids(ns), Starts(ns))
  }

  /**
   * A robot plan lists node ids `0..n-1` with, for each, the cell of the
   * waypoint it was built from; it is empty for a one-waypoint plan.
   */
  lemma RobotPlanShape(r: nat, p: seq<Waypoint>)
    requires |p| > 0
    ensures var rp := RobotPlanOf(r, p);
      var ix := MoveIndices(p, |p| - 1);
      && |rp.nodes| == |rp.positions| == |ix|
      && (forall k :: 0 <= k < |ix| ==> rp.nodes[k] == NodeId(r, k) && rp.positions[k] == Position(p[ix[k]]))
      && (|p| == 1 ==> rp.nodes == [])
  {
    RobotNodesFromMoves(r, p, |p| - 1);
  }

  /** Node `id` is any node of a robot before `r`, or one of the first `n` nodes of robot `r`. */
  ghost predicate Placed(cs: seq<seq<AdgNode>>, r: nat, n: nat, id: NodeId)
  {
    && 0 <= id.idx
    && id.robot < |cs|
    && ((id.robot < r && id.idx < |cs[id.robot]|) || (id.robot == r && id.idx < n))
  }

  /** The node map holds exactly the placed nodes, each with its chain's data. */
  ghost predicate NodesBuilt(nodes: map<NodeId, AdgNode>, cs: seq<seq<AdgNode>>, r: nat, n: nat)
    requires r < |cs| ==> n <= |cs[r]|
  {
    && (forall id :: id in nodes <==> Placed(cs, r, n, id))
    && (forall id {:trigger nodes[id]} | id in nodes :: nodes[id] == cs[id.robot][id.idx])
  }

  /** The type-1 edges are exactly `(r,i-1) -> (r,i)` between placed nodes. */
  ghost predicate EdgesBuilt(type1: set<Edge>, cs: seq<seq<AdgNode>>, r: nat, n: nat)
  {
    forall e {:trigger e in type1} :: e in type1 <==>
      && e.tail.robot == e.head.robot
      && e.head.idx == e.tail.idx + 1
      && Placed(cs, r, n, e.tail)
      && Placed(cs, r, n, e.head)
  }

  /** Node `a` must wait for `b`: `a` starts where `b` ends, and no later than `b` starts. */
  predicate Matches(a: AdgNode, b: AdgNode)
  {
    a.sLoc == b.gLoc && a.time <= b.time
  }

  /** How many of `n` chain nodes the scan visits: all but the last. */
  function Scanned(n: nat): nat
  {
    if n == 0 then 0 else n - 1
  }

  /** The type-2 edges found from `(a,i)` to the first `m` nodes of robot `b`, in scan order. */
  function HeadsFor(cs: seq<seq<AdgNode>>, a: nat, i: nat, b: nat, m: nat): seq<Edge>
    requires a < |cs| && i < |cs[a]| && b < |cs| && m <= |cs[b]|
  {
    if m == 0 then
      []
    else
      HeadsFor(cs, a, i, b, m - 1)
        + (if Matches(cs[a][i], cs[b][m - 1]) then [Edge(NodeId(a, i), NodeId(b, m - 1))] else [])
  }

  /** The type-2 edges found from `(a,i)` to every robot below `bc` but `a`. */
  function OthersFor(cs: seq<seq<AdgNode>>, a: nat, i: nat, bc: nat): seq<Edge>
    requires a < |cs| && i < |cs[a]| && bc <= |cs|
  {
    if bc == 0 then
      []
    else
      OthersFor(cs, a, i, bc - 1)
        + (if bc - 1 != a then HeadsFor(cs, a, i, bc - 1, Scanned(|cs[bc - 1]|)) else [])
  }

  /** The type-2 edges found from the first `m` nodes of robot `a`. */
  function TailsFor(cs: seq<seq<AdgNode>>, a: nat, m: nat): seq<Edge>
    requires a < |cs| && m <= |cs[a]|
  {
    if m == 0 then [] else TailsFor(cs, a, m - 1) + OthersFor(cs, a, m - 1, |cs|)
  }

  /** The type-2 edges found from every robot below `ac`, in scan order. */
  function ScanUpTo(cs: seq<seq<AdgNode>>, ac: nat): seq<Edge>
    requires ac <= |cs|
  {
    if ac == 0 then [] else ScanUpTo(cs, ac - 1) + TailsFor(cs, ac - 1, Scanned(|cs[ac - 1]|))
  }

  /** All type-2 edges, in the order the scan adds them. */
  function Scan(cs: seq<seq<AdgNode>>): seq<Edge>
  {
    ScanUpTo(cs, |cs|)
  }

  /**
   * A type-2 edge `a -> b`: different robots, neither node the last of its
   * chain, `a` starts on the cell where `b` ends and no later than `b` starts.
   */
  ghost predicate IsDependency(cs: seq<seq<AdgNode>>, e: Edge)
  {
    && e.tail.robot < |cs|
    && e.head.robot < |cs|
    && e.tail.robot != e.head.robot
    && 0 <= e.tail.idx < |cs[e.tail.robot]| - 1
    && 0 <= e.head.idx < |cs[e.head.robot]| - 1
    && Matches(cs[e.tail.robot][e.tail.idx], cs[e.head.robot][e.head.idx])
  }

  /** The scan of `(a,i)` against robot `b` finds exactly the matching nodes among the first `m`. */
  lemma {:induction false} HeadsForMembers(cs: seq<seq<AdgNode>>, a: nat, i: nat, b: nat, m: nat)
    requires a < |cs| && i < |cs[a]| && b < |cs| && m <= |cs[b]|
    ensures forall e :: e in HeadsFor(cs, a, i, b, m) <==>
      && e.tail == NodeId(a, i)
      && e.head.robot == b
      && 0 <= e.head.idx < m
      && Matches(cs[a][i], cs[b][e.head.idx])
  {
    if m > 0 {
      HeadsForMembers(cs, a, i, b, m - 1);
    }
  }

  /** The scan of `(a,i)` against the robots below `bc` finds exactly their matching non-last nodes. */
  lemma {:induction false} OthersForMembers(cs: seq<seq<AdgNode>>, a: nat, i: nat, bc: nat)
    requires a < |cs| && i < |cs[a]| && bc <= |cs|
    ensures forall e :: e in OthersFor(cs, a, i, bc) <==>
      && e.tail == NodeId(a, i)
      && e.head.robot < bc
      && e.head.robot != a
      && 0 <= e.head.idx < |cs[e.head.robot]| - 1
      && Matches(cs[a][i], cs[e.head.robot][e.head.idx])
  {
    if bc > 0 {
      OthersForMembers(cs, a, i, bc - 1);
      if bc - 1 != a {
        HeadsForMembers(cs, a, i, bc - 1, Scanned(|cs[bc - 1]|));
      }
    }
  }

  /** The scan from the first `m` nodes of robot `a` finds exactly their dependencies. */
  lemma {:induction false} TailsForMembers(cs: seq<seq<AdgNode>>, a: nat, m: nat)
    requires a < |cs| && m <= |cs[a]|
    ensures forall e :: e in TailsFor(cs, a, m) <==>
      && e.tail.robot == a
      && 0 <= e.tail.idx < m
      && e.head.robot < |cs|
      && e.head.robot != a
      && 0 <= e.head.idx < |cs[e.head.robot]| - 1
      && Matches(cs[a][e.tail.idx], cs[e.head.robot][e.head.idx])
  {
    if m > 0 {
      TailsForMembers(cs, a, m - 1);
      OthersForMembers(cs, a, m - 1, |cs|);
      TailsJoin(cs, a, m, TailsFor(cs, a, m - 1), OthersFor(cs, a, m - 1, |cs|));
    }
  }

  /** The edges from the first `m - 1` nodes of `a`, then those from node `m - 1`, are those from the first `m`. */
  lemma TailsJoin(cs: seq<seq<AdgNode>>, a: nat, m: nat, front: seq<Edge>, more: seq<Edge>)
    requires a < |cs| && 0 < m <= |cs[a]|
    requires forall e :: e in front <==>
      && e.tail.robot == a
      && 0 <= e.tail.idx < m - 1
      && e.head.robot < |cs|
      && e.head.robot != a
      && 0 <= e.head.idx < |cs[e.head.robot]| - 1
      && Matches(cs[a][e.tail.idx], cs[e.head.robot][e.head.idx])
    requires forall e :: e in more <==>
      && e.tail == NodeId(a, m - 1)
      && e.head.robot < |cs|
      && e.head.robot != a
      && 0 <= e.head.idx < |cs[e.head.robot]| - 1
      && Matches(cs[a][m - 1], cs[e.head.robot][e.head.idx])
    ensures forall e :: e in front + more <==>
      && e.tail.robot == a
      && 0 <= e.tail.idx < m
      && e.head.robot < |cs|
      && e.head.robot != a
      && 0 <= e.head.idx < |cs[e.head.robot]| - 1
      && Matches(cs[a][e.tail.idx], cs[e.head.robot][e.head.idx])
  {
  }

  /** The scan over the robots below `ac` finds exactly the dependencies leaving them. */
  lemma {:induction false} ScanUpToMembers(cs: seq<seq<AdgNode>>, ac: nat)
    requires ac <= |cs|
    ensures forall e :: e in ScanUpTo(cs, ac) <==> e.tail.robot < ac && IsDependency(cs, e)
  {
    if ac > 0 {
      ScanUpToMembers(cs, ac - 1);
      TailsForMembers(cs, ac - 1, Scanned(|cs[ac - 1]|));
    }
  }

  /** The scan finds exactly the type-2 dependencies. */
  lemma ScanMembers(cs: seq<seq<AdgNode>>)
    ensures forall e :: e in Scan(cs) <==> IsDependency(cs, e)
  {
    ScanUpToMembers(cs, |cs|);
  }

  /**
   * Two robots swapping ends of a three-cell corridor head-on: robot 0 goes
   * from `(0,0)` to `(0,2)` while robot 1 goes from `(0,2)` to `(0,0)`, one
   * cell per time step.
   */
  function HeadOnPlans(): seq<seq<Waypoint>>
  {
    [[Waypoint(0, 0, 0), Waypoint(0, 1, 1), Waypoint(0, 2, 2)],
     [Waypoint(0, 2, 0), Waypoint(0, 1, 1), Waypoint(0, 0, 2)]]
  }

  /**
   * The head-on swap yields no type-2 edge at all: only the first node of
   * each two-node chain is scanned, and neither starts where the other ends.
   */
  lemma HeadOnHasNoDependency()
    ensures Scan(Chains(HeadOnPlans())) == []
  {
    var plans := HeadOnPlans();
    var cs := Chains(plans);
    forall r | 0 <= r < 2
      ensures |cs[r]| == 2
      ensures cs[r][0] == NewNode(NodeId(r, 0), plans[r][0], plans[r][1])
    {
      assert Moves(plans[r], 0) && Moves(plans[r], 1);
      assert cs[r] == RobotNodes(r, plans[r], 2);
    }
    assert !Matches(cs[0][0], cs[1][0]) && !Matches(cs[1][0], cs[0][0]);
    ScanMembers(cs);
  }

  /**
   * What the scan relies on: the nodes and type-1 edges are complete, and
   * every type-2 edge leaves a node that is not the last of its chain.
   */
  ghost predicate ScanReady(nodes: map<NodeId, AdgNode>, type1: set<Edge>, type2: set<Edge>, cs: seq<seq<AdgNode>>)
  {
    && NodesBuilt(nodes, cs, |cs|, 0)
    && EdgesBuilt(type1, cs, |cs|, 0)
    && forall e {:trigger e in type2} | e in type2 :: e.tail.robot < |cs| && 0 <= e.tail.idx < |cs[e.tail.robot]| - 1
  }

  /**
   * Under `ScanReady`, a node has a successor exactly when it is not the last
   * of its chain: this is why the scan never visits last nodes.
   */
  lemma SuccessorIffNotLast(cs: seq<seq<AdgNode>>, type1: set<Edge>, type2: set<Edge>, id: NodeId)
    requires EdgesBuilt(type1, cs, |cs|, 0)
    requires forall e {:trigger e in type2} | e in type2 :: e.tail.robot < |cs| && 0 <= e.tail.idx < |cs[e.tail.robot]| - 1
    requires Placed(cs, |cs|, 0, id)
    ensures HasSuccessor(type1 + type2, id) <==> id.idx < |cs[id.robot]| - 1
  {
    if id.idx < |cs[id.robot]| - 1 {
      var e := Edge(id, NodeId(id.robot, id.idx + 1));
      assert Placed(cs, |cs|, 0, e.head);
      assert e in type1;
    }
  }

  /** Adding node `n` of robot `r` extends the placed nodes by that one node. */
  lemma NodesStep(nodes: map<NodeId, AdgNode>, cs: seq<seq<AdgNode>>, r: nat, n: nat)
    requires r < |cs| && n < |cs[r]| && NodesBuilt(nodes, cs, r, n)
    ensures NodesBuilt(nodes[NodeId(r, n) := cs[r][n]], cs, r, n + 1)
  {
  }

  /** Adding edge `(r,n-1) -> (r,n)`, or nothing for `n == 0`, extends the chain edges by that one edge. */
  lemma EdgesStep(type1: set<Edge>, cs: seq<seq<AdgNode>>, r: nat, n: nat)
    requires r < |cs| && n < |cs[r]| && EdgesBuilt(type1, cs, r, n)
    ensures n > 0 ==> EdgesBuilt(type1 + {Edge(NodeId(r, n - 1), NodeId(r, n))}, cs, r, n + 1)
    ensures n == 0 ==> EdgesBuilt(type1, cs, r, n + 1)
  {
    var type1' := if n > 0 then type1 + {Edge(NodeId(r, n - 1), NodeId(r, n))} else type1;
    forall e {:trigger e in type1'}
      ensures e in type1' <==>
        && e.tail.robot == e.head.robot
        && e.head.idx == e.tail.idx + 1
        && Placed(cs, r, n + 1, e.tail)
        && Placed(cs, r, n + 1, e.head)
    {
      if e.head == NodeId(r, n) && e.tail.robot == r && e.head.idx == e.tail.idx + 1 {
        assert n > 0 ==> e == Edge(NodeId(r, n - 1), NodeId(r, n));
      }
    }
  }

  /** Once robot `r` has all its nodes, the next robot starts from none. */
  lemma NextRobot(nodes: map<NodeId, AdgNode>, type1: set<Edge>, cs: seq<seq<AdgNode>>, r: nat)
    requires r < |cs| && NodesBuilt(nodes, cs, r, |cs[r]|) && EdgesBuilt(type1, cs, r, |cs[r]|)
    ensures NodesBuilt(nodes, cs, r + 1, 0) && EdgesBuilt(type1, cs, r + 1, 0)
  {
    PlacedNextRobot(cs, r);
  }

  lemma PlacedNextRobot(cs: seq<seq<AdgNode>>, r: nat)
    requires r < |cs|
    ensures forall id :: Placed(cs, r, |cs[r]|, id) <==> Placed(cs, r + 1, 0, id)
  {
  }

  /**
   * One step of the chain loop: on a move the next node of the chain is added
   * with its edge from the previous node, otherwise nothing changes.
   */
  lemma MoveStep(nodes: map<NodeId, AdgNode>, type1: set<Edge>, cs: seq<seq<AdgNode>>, r: nat, plan: seq<Waypoint>, idx: nat)
    requires r < |cs| && cs[r] == RobotChain(r, plan) && idx + 1 < |plan|
    requires |RobotNodes(r, plan, idx)| <= |cs[r]|
    requires NodesBuilt(nodes, cs, r, |RobotNodes(r, plan, idx)|)
    requires EdgesBuilt(type1, cs, r, |RobotNodes(r, plan, idx)|)
    ensures var before := RobotNodes(r, plan, idx);
      var n := |before|;
      var id := NodeId(r, n);
      var node := NewNode(id, plan[idx], plan[idx + 1]);
      && |RobotNodes(r, plan, idx + 1)| <= |cs[r]|
      && (Moves(plan, idx) ==>
            && RobotNodes(r, plan, idx + 1) == before + [node]
            && NodesBuilt(nodes[id := node], cs, r, n + 1)
            && (n > 0 ==> EdgesBuilt(type1 + {Edge(NodeId(r, n - 1), id)}, cs, r, n + 1))
            && (n == 0 ==> EdgesBuilt(type1, cs, r, n + 1))
            && Ids(before + [node]) == Ids(before) + [id]
            && Starts(before + [node]) == Starts(before) + [Loc(plan[idx].x, plan[idx].y)])
      && (!Moves(plan, idx) ==> RobotNodes(r, plan, idx + 1) == before)
  {
    RobotNodesPrefix(r, plan, idx + 1, |plan| - 1);
    var before := RobotNodes(r, plan, idx);
    var n := |before|;
    var node := NewNode(NodeId(r, n), plan[idx], plan[idx + 1]);
    if Moves(plan, idx) {
      assert cs[r][n] == node;
      NodesStep(nodes, cs, r, n);
      EdgesStep(type1, cs, r, n);
      assert Ids(before + [node]) == Ids(before) + [node.id];
      assert Starts(before + [node]) == Starts(before) + [node.sLoc];
    }
  }

  /** After the chain loop: all of a multi-waypoint chain is placed; a one-waypoint chain is its single node. */
  lemma ChainEnd(cs: seq<seq<AdgNode>>, r: nat, plan: seq<Waypoint>)
    requires r < |cs| && |plan| > 0 && cs[r] == RobotChain(r, plan)
    ensures |plan| >= 2 ==> |RobotNodes(r, plan, |plan| - 1)| == |cs[r]|
    ensures |plan| == 1 ==>
      && RobotNodes(r, plan, 0) == []
      && cs[r] == [NewNode(NodeId(r, 0), plan[0], plan[0])]
  {
  }

  /** Adds robot `r`'s nodes and type-1 edges, and returns its robot plan. */
  method AddChain(g: Graph, ghost cs: seq<seq<AdgNode>>, r: nat, plan: seq<Waypoint>) returns (rp: RobotPlan)
    requires r < |cs| && |plan| > 0 && cs[r] == RobotChain(r, plan)
    requires NodesBuilt(g.nodes, cs, r, 0) && EdgesBuilt(g.type1, cs, r, 0)
    modifies g
    ensures NodesBuilt(g.nodes, cs, r + 1, 0) && EdgesBuilt(g.type1, cs, r + 1, 0)
    ensures g.type2 == old(g.type2)
    ensures rp == RobotPlanOf(r, plan)
  {
    var nodeIdx;
    rp, nodeIdx := AddMovingNodes(g, cs, r, plan);
    ChainEnd(cs, r, plan);
    if |plan| == 1 {
      // start and goal are the same: one node that stays put
      var id := NodeId(r, nodeIdx);
      NodesStep(g.nodes, cs, r, 0);
      EdgesStep(g.type1, cs, r, 0);
      g.nodes := g.nodes[id := NewNode(id, plan[0], plan[0])];
    }
    NextRobot(g.nodes, g.type1, cs, r);
  }

  /** The loop over a plan's waypoints but the last: a node, and an edge from the previous one, per move. */
  method AddMovingNodes(g: Graph, ghost cs: seq<seq<AdgNode>>, r: nat, plan: seq<Waypoint>)
    returns (rp: RobotPlan, nodeIdx: nat)
    requires r < |cs| && |plan| > 0 && cs[r] == RobotChain(r, plan)
    requires NodesBuilt(g.nodes, cs, r, 0) && EdgesBuilt(g.type1, cs, r, 0)
    modifies g`nodes, g`type1
    ensures nodeIdx == |RobotNodes(r, plan, |plan| - 1)| <= |cs[r]|
    ensures NodesBuilt(g.nodes, cs, r, nodeIdx) && EdgesBuilt(g.type1, cs, r, nodeIdx)
    ensures rp == RobotPlanOf(r, plan)
  {
    var planNodes: seq<NodeId> := [];
    var planPositions: seq<Loc> := [];
    // the graph's node map and type-1 edges are updated through locals and
    // written back after the loop; nothing reads the graph in between
    var nodes, type1 := g.nodes, g.type1;
    nodeIdx := 0;
    var idx := 0;
    while idx < |plan| - 1
      invariant 0 <= idx <= |plan| - 1
      invariant nodeIdx == |RobotNodes(r, plan, idx)| <= |cs[r]|
      invariant planNodes == Ids(RobotNodes(r, plan, idx))
      invariant planPositions == Starts(RobotNodes(r, plan, idx))
      invariant NodesBuilt(nodes, cs, r, nodeIdx) && EdgesBuilt(type1, cs, r, nodeIdx)
    {
      MoveStep(nodes, type1, cs, r, plan, idx);
      var item := plan[idx];
      var next := plan[idx + 1];
      if !(item.x == next.x && item.y == next.y) {
        var id := NodeId(r, nodeIdx);
        var node := NewNode(id, item, next);
        planNodes := planNodes + [id];
        planPositions := planPositions + [Loc(item.x, item.y)];
        nodes := nodes[id := node];
        if nodeIdx > 0 {
          type1 := type1 + {Edge(NodeId(r, nodeIdx - 1), id)};
        }
        nodeIdx := nodeIdx + 1;
      }
      idx := idx + 1;
    }
    g.nodes, g.type1 := nodes, type1;
    rp := RobotPlan(planNodes, planPositions);
  }

  /** The type-2 edges are those of `base` and those `found` so far. */
  ghost predicate Collected(type2: set<Edge>, base: set<Edge>, found: seq<Edge>)
  {
    forall e :: e in type2 <==> e in base || e in found
  }

  lemma CollectedAdd(base: set<Edge>, type2: set<Edge>, found: seq<Edge>, e: Edge)
    requires Collected(type2, base, found)
    ensures Collected(type2 + {e}, base, found + [e])
  {
  }

  lemma CollectedAppend(base: set<Edge>, mid: set<Edge>, type2: set<Edge>, found: seq<Edge>, more: seq<Edge>)
    requires Collected(mid, base, found) && Collected(type2, mid, more)
    ensures Collected(type2, base, found + more)
  {
  }

  /** The innermost scan: node `(a,i)` against every node of robot `b` that has a successor. */
  method ScanHeads(g: Graph, ghost cs: seq<seq<AdgNode>>, a: nat, i: nat, thisNode: AdgNode, b: nat)
    returns (found: seq<Edge>)
    requires ScanReady(g.nodes, g.type1, g.type2, cs)
    requires a < |cs| && i < |cs[a]| - 1 && thisNode == cs[a][i]
    requires b < |cs| && b != a && |cs[b]| > 0
    modifies g`type2
    ensures ScanReady(g.nodes, g.type1, g.type2, cs)
    ensures found == HeadsFor(cs, a, i, b, Scanned(|cs[b]|))
    ensures Collected(g.type2, old(g.type2), found)
  {
    found := [];
    var thisId := NodeId(a, i);
    var otherIdx := 0;
    var otherId := NodeId(b, otherIdx);
    while HasSuccessor(g.Edges(), otherId)
      invariant 0 <= otherIdx < |cs[b]|
      invariant otherId == NodeId(b, otherIdx)
      invariant ScanReady(g.nodes, g.type1, g.type2, cs)
      invariant found == HeadsFor(cs, a, i, b, otherIdx)
      invariant Collected(g.type2, old(g.type2), found)
      decreases |cs[b]| - otherIdx
    {
      SuccessorIffNotLast(cs, g.type1, g.type2, otherId);
      var otherNode := g.nodes[otherId];
      if thisNode.sLoc == otherNode.gLoc && thisNode.time <= otherNode.time {
        CollectedAdd(old(g.type2), g.type2, found, Edge(thisId, otherId));
        g.type2 := g.type2 + {Edge(thisId, otherId)};
        found := found + [Edge(thisId, otherId)];
      }
      otherIdx := otherIdx + 1;
      otherId := NodeId(b, otherIdx);
    }
    SuccessorIffNotLast(cs, g.type1, g.type2, otherId);
  }

  /**
   * Node `(a,i)` against every other robot in robot order. `missing` is the
   * first robot's start node that is not in the graph, if any.
   */
  method ScanOthers(g: Graph, ghost cs: seq<seq<AdgNode>>, robotCount: nat, a: nat, i: nat, thisNode: AdgNode)
    returns (missing: Option<NodeId>, found: seq<Edge>)
    requires robotCount == |cs| && ScanReady(g.nodes, g.type1, g.type2, cs)
    requires a < |cs| && i < |cs[a]| - 1 && thisNode == cs[a][i]
    modifies g`type2
    ensures ScanReady(g.nodes, g.type1, g.type2, cs)
    ensures missing.Some? ==> FirstWithoutNodes(cs, missing.value)
    ensures missing.None? ==>
      && (forall r :: 0 <= r < |cs| ==> |cs[r]| > 0)
      && found == OthersFor(cs, a, i, |cs|)
      && Collected(g.type2, old(g.type2), found)
  {
    found := [];
    var b := 0;
    while b < robotCount
      invariant 0 <= b <= |cs|
      invariant ScanReady(g.nodes, g.type1, g.type2, cs)
      invariant forall r :: 0 <= r < b ==> |cs[r]| > 0
      invariant found == OthersFor(cs, a, i, b)
      invariant Collected(g.type2, old(g.type2), found)
    {
      ghost var before := g.type2;
      var absent, heads := ScanOther(g, cs, a, i, thisNode, b);
      if absent {
        return Some(NodeId(b, 0)), found;
      }
      OthersStep(cs, a, i, b, old(g.type2), before, g.type2, found, heads);
      found := found + heads;
      b := b + 1;
    }
    return None, found;
  }

  /** One pass of `ScanOthers`'s loop extends both the edges found and the edges collected. */
  lemma OthersStep(cs: seq<seq<AdgNode>>, a: nat, i: nat, b: nat, base: set<Edge>, mid: set<Edge>,
                   type2: set<Edge>, found: seq<Edge>, heads: seq<Edge>)
    requires a < |cs| && i < |cs[a]| && b < |cs|
    requires found == OthersFor(cs, a, i, b)
    requires heads == (if b != a then HeadsFor(cs, a, i, b, Scanned(|cs[b]|)) else [])
    requires Collected(mid, base, found) && Collected(type2, mid, heads)
    ensures found + heads == OthersFor(cs, a, i, b + 1)
    ensures Collected(type2, base, found + heads)
  {
    CollectedAppend(base, mid, type2, found, heads);
  }

  /**
   * One robot `b` of that scan: skipped when it is robot `a` itself, and
   * `absent` when its start node is not in the graph.
   */
  method ScanOther(g: Graph, ghost cs: seq<seq<AdgNode>>, a: nat, i: nat, thisNode: AdgNode, b: nat)
    returns (absent: bool, heads: seq<Edge>)
    requires ScanReady(g.nodes, g.type1, g.type2, cs)
    requires a < |cs| && i < |cs[a]| - 1 && thisNode == cs[a][i] && b < |cs|
    modifies g`type2
    ensures ScanReady(g.nodes, g.type1, g.type2, cs)
    ensures absent <==> b != a && |cs[b]| == 0
    ensures !absent ==>
      && heads == (if b != a then HeadsFor(cs, a, i, b, Scanned(|cs[b]|)) else [])
      && Collected(g.type2, old(g.type2), heads)
  {
    if b == a {
      return false, [];
    }
    var otherId := NodeId(b, 0);
    if otherId !in g.nodes {
      return true, [];
    }
    absent := false;
    heads := ScanHeads(g, cs, a, i, thisNode, b);
  }

  /** Every node of robot `a` that has a successor, against every other robot. */
  method ScanRobot(g: Graph, ghost cs: seq<seq<AdgNode>>, robotCount: nat, a: nat)
    returns (missing: Option<NodeId>, found: seq<Edge>)
    requires robotCount == |cs| && ScanReady(g.nodes, g.type1, g.type2, cs)
    requires a < |cs| && forall r :: 0 <= r < a ==> |cs[r]| > 0
    modifies g`type2
    ensures ScanReady(g.nodes, g.type1, g.type2, cs)
    ensures missing.Some? ==> FirstWithoutNodes(cs, missing.value)
    ensures missing.None? ==>
      && |cs[a]| > 0
      && found == TailsFor(cs, a, Scanned(|cs[a]|))
      && Collected(g.type2, old(g.type2), found)
  {
    found := [];
    var thisIdx := 0;
    var thisId := NodeId(a, thisIdx);
    if thisId !in g.nodes {
      return Some(thisId), found;
    }
    while HasSuccessor(g.Edges(), thisId)
      invariant 0 <= thisIdx < |cs[a]|
      invariant thisId == NodeId(a, thisIdx)
      invariant ScanReady(g.nodes, g.type1, g.type2, cs)
      invariant found == TailsFor(cs, a, thisIdx)
      invariant Collected(g.type2, old(g.type2), found)
      decreases |cs[a]| - thisIdx
    {
      SuccessorIffNotLast(cs, g.type1, g.type2, thisId);
      var thisNode := g.nodes[thisId];
      var more;
      ghost var before := g.type2;
      missing, more := ScanOthers(g, cs, robotCount, a, thisIdx, thisNode);
      if missing.Some? {
        return;
      }
      TailsStep(cs, a, thisIdx, old(g.type2), before, g.type2, found, more);
      found := found + more;
      thisIdx := thisIdx + 1;
      thisId := NodeId(a, thisIdx);
    }
    SuccessorIffNotLast(cs, g.type1, g.type2, thisId);
    assert thisIdx == Scanned(|cs[a]|);
    return None, found;
  }

  /** One pass of `ScanRobot`'s loop extends both the edges found and the edges collected. */
  lemma TailsStep(cs: seq<seq<AdgNode>>, a: nat, m: nat, base: set<Edge>, mid: set<Edge>,
                  type2: set<Edge>, found: seq<Edge>, more: seq<Edge>)
    requires a < |cs| && m < |cs[a]|
    requires found == TailsFor(cs, a, m) && more == OthersFor(cs, a, m, |cs|)
    requires Collected(mid, base, found) && Collected(type2, mid, more)
    ensures found + more == TailsFor(cs, a, m + 1)
    ensures Collected(type2, base, found + more)
  {
    CollectedAppend(base, mid, type2, found, more);
  }

  lemma CollectedFromEmpty(type2: set<Edge>, found: seq<Edge>)
    requires Collected(type2, {}, found)
    ensures forall e :: e in type2 <==> e in found
  {
  }

  /** One pass of `AddDependencies`'s loop extends both the edges found and the edges collected. */
  lemma ScanUpToStep(cs: seq<seq<AdgNode>>, a: nat, mid: set<Edge>, type2: set<Edge>,
                     order: seq<Edge>, found: seq<Edge>)
    requires a < |cs|
    requires order == ScanUpTo(cs, a) && found == TailsFor(cs, a, Scanned(|cs[a]|))
    requires Collected(mid, {}, order) && Collected(type2, mid, found)
    ensures order + found == ScanUpTo(cs, a + 1)
    ensures Collected(type2, {}, order + found)
  {
    CollectedAppend({}, mid, type2, order, found);
  }

  /** `id` is the start node of the first robot without nodes. */
  ghost predicate FirstWithoutNodes(cs: seq<seq<AdgNode>>, id: NodeId)
  {
    && id.idx == 0
    && id.robot < |cs|
    && |cs[id.robot]| == 0
    && forall r :: 0 <= r < id.robot ==> |cs[r]| > 0
  }

  /** The type-2 scan over all robots, tail robot by tail robot. */
  method AddDependencies(g: Graph, ghost cs: seq<seq<AdgNode>>, robotCount: nat)
    returns (missing: Option<NodeId>, order: seq<Edge>)
    requires robotCount == |cs| && g.type2 == {} && ScanReady(g.nodes, g.type1, g.type2, cs)
    modifies g`type2
    ensures g.nodes == old(g.nodes) && g.type1 == old(g.type1)
    ensures missing.Some? ==> FirstWithoutNodes(cs, missing.value)
    ensures missing.None? ==>
      && (forall r :: 0 <= r < |cs| ==> |cs[r]| > 0)
      && order == Scan(cs)
      && forall e :: e in g.type2 <==> e in order
  {
    order := [];
    var a := 0;
    while a < robotCount
      invariant 0 <= a <= |cs|
      invariant ScanReady(g.nodes, g.type1, g.type2, cs)
      invariant forall r :: 0 <= r < a ==> |cs[r]| > 0
      invariant order == ScanUpTo(cs, a)
      invariant Collected(g.type2, {}, order)
    {
      var found;
      ghost var before := g.type2;
      missing, found := ScanRobot(g, cs, robotCount, a);
      if missing.Some? {
        return;
      }
      ScanUpToStep(cs, a, before, g.type2, order, found);
      order := order + found;
      a := a + 1;
    }
    CollectedFromEmpty(g.type2, order);
    return None, order;
  }

  method DetermineAdg(plans: seq<seq<Waypoint>>) returns (res: BuildResult)
    ensures res.EmptyPlan? <==> exists r :: 0 <= r < |plans| && |plans[r]| == 0
    ensures res.EmptyPlan? ==>
      && res.robot < |plans|
      && |plans[res.robot]| == 0
      && forall r :: 0 <= r < res.robot ==> |plans[r]| > 0
    ensures res.MissingNode? ==> FirstWithoutNodes(Chains(plans), res.node)
    ensures res.Built? <==> forall r :: 0 <= r < |plans| ==> |Chains(plans)[r]| > 0
    ensures res.Built? ==>
      var cs := Chains(plans);
      && fresh(res.adg)
      && (forall r :: 0 <= r < |plans| ==> |plans[r]| > 0)
      && NodesBuilt(res.adg.nodes, cs, |cs|, 0)
      && EdgesBuilt(res.adg.type1, cs, |cs|, 0)
      && res.type2Order == Scan(cs)
      && (forall e :: e in res.adg.type2 <==> e in res.type2Order)
      && |res.robotPlans| == |plans|
      && (forall r :: 0 <= r < |plans| ==> res.robotPlans[r] == RobotPlanOf(r, plans[r]))
      && |res.goals| == |plans|
      && (forall r :: 0 <= r < |plans| ==> res.goals[r] == plans[r][|plans[r]| - 1])
  {
    ghost var cs := Chains(plans);
    var g := new Graph(map[], {}, {});
    var empty, robotPlans, goals := AddChains(g, plans, cs);
    if empty.Some? {
      assert |cs[empty.value]| == 0;
      return EmptyPlan(empty.value);
    }
    var missing, order := AddDependencies(g, cs, |plans|);
    if missing.Some? {
      return MissingNode(missing.value);
    }
    return Built(g, robotPlans, goals, order);
  }

  /** Robots `0..r-1` all have waypoints, and their robot plans and goals are recorded in order. */
  ghost predicate PlansRecorded(plans: seq<seq<Waypoint>>, robotPlans: seq<RobotPlan>, goals: seq<Waypoint>, r: nat)
  {
    && r <= |plans| && |robotPlans| == r && |goals| == r
    && forall r' :: 0 <= r' < r ==>
         && |plans[r']| > 0
         && robotPlans[r'] == RobotPlanOf(r', plans[r'])
         && goals[r'] == plans[r'][|plans[r']| - 1]
  }

  lemma PlansRecordedNext(plans: seq<seq<Waypoint>>, robotPlans: seq<RobotPlan>, goals: seq<Waypoint>, r: nat)
    requires PlansRecorded(plans, robotPlans, goals, r) && r < |plans| && |plans[r]| > 0
    ensures PlansRecorded(plans, robotPlans + [RobotPlanOf(r, plans[r])], goals + [plans[r][|plans[r]| - 1]], r + 1)
  {
  }

  /**
   * The first loop of the builder: each robot's nodes and type-1 edges, its
   * robot plan and its goal, robot by robot; it stops at the first robot
   * without waypoints.
   */
  method AddChains(g: Graph, plans: seq<seq<Waypoint>>, ghost cs: seq<seq<AdgNode>>)
    returns (empty: Option<nat>, robotPlans: seq<RobotPlan>, goals: seq<Waypoint>)
    requires cs == Chains(plans) && g.type2 == {}
    requires NodesBuilt(g.nodes, cs, 0, 0) && EdgesBuilt(g.type1, cs, 0, 0)
    modifies g
    ensures empty.Some? ==>
      && empty.value < |plans| && |plans[empty.value]| == 0
      && forall r :: 0 <= r < empty.value ==> |plans[r]| > 0
    ensures empty.None? ==>
      && PlansRecorded(plans, robotPlans, goals, |plans|)
      && NodesBuilt(g.nodes, cs, |cs|, 0) && EdgesBuilt(g.type1, cs, |cs|, 0) && g.type2 == {}
  {
    robotPlans, goals := [], [];
    var r := 0;
    while r < |plans|
      invariant PlansRecorded(plans, robotPlans, goals, r)
      invariant NodesBuilt(g.nodes, cs, r, 0) && EdgesBuilt(g.type1, cs, r, 0)
      invariant g.type2 == {}
    {
      var plan := plans[r];
      if |plan| == 0 {
        return Some(r), robotPlans, goals;
      }
      PlansRecordedNext(plans, robotPlans, goals, r);
      goals := goals + [plan[|plan| - 1]];
      var rp := AddChain(g, cs, r, plan);
      robotPlans := robotPlans + [rp];
      r := r + 1;
    }
    empty := None;
  }

  /**
   * Each robot's chain without merging: one node per waypoint but the last,
   * whether or not the robot moves.
   */
  function UnmergedPlanOf(r: nat, p: seq<Waypoint>): RobotPlan
    requires |p| > 0
  {
    RobotPlan(seq(|p| - 1, k => NodeId(r, k)), seq(|p| - 1, k requires 0 <= k < |p| - 1 => Position(p[k])))
  }

  /** When the robot moves at every step, node `k` is built from waypoints `k` and `k+1`. */
  lemma {:induction false} AlwaysMovingNodes(r: nat, p: seq<Waypoint>, m: nat)
    requires m < |p|
    requires forall i :: 0 <= i < |p| - 1 ==> Moves(p, i)
    ensures |RobotNodes(r, p, m)| == m
    ensures forall k :: 0 <= k < m ==> RobotNodes(r, p, m)[k] == NewNode(NodeId(r, k), p[k], p[k + 1])
  {
    if m > 0 {
      AlwaysMovingNodes(r, p, m - 1);
    }
  }

  /** When the robot moves at every step, merging removes nothing: both plans agree. */
  lemma MergedEqualsUnmergedWhenAlwaysMoving(r: nat, p: seq<Waypoint>)
    requires |p| > 0
    requires forall i :: 0 <= i < |p| - 1 ==> Moves(p, i)
    ensures RobotPlanOf(r, p) == UnmergedPlanOf(r, p)
  {
    AlwaysMovingNodes(r, p, |p| - 1);
    var ns := RobotNodes(r, p, |p| - 1);
    var up := UnmergedPlanOf(r, p);
    assert Ids(ns) == up.nodes;
    forall k | 0 <= k < |ns|
      ensures Starts(ns)[k] == up.positions[k]
    {
      assert ns[k] == NewNode(NodeId(r, k), p[k], p[k + 1]);
    }
    assert Starts(ns) == up.positions;
  }

  datatype PlansResult =
    | Planned(robotPlans: seq<RobotPlan>, goals: seq<Waypoint>)
    | NoWaypoints(robot: nat)

  /** The robot plans for a run that may deadlock: consecutive waypoints on one cell are not merged. */
  method DetermineRobotPlans(plans: seq<seq<Waypoint>>) returns (res: PlansResult)
    ensures res.NoWaypoints? <==> exists r :: 0 <= r < |plans| && |plans[r]| == 0
    ensures res.NoWaypoints? ==>
      && res.robot < |plans|
      && |plans[res.robot]| == 0
      && forall r :: 0 <= r < res.robot ==> |plans[r]| > 0
    ensures res.Planned? ==>
      && (forall r :: 0 <= r < |plans| ==> |plans[r]| > 0)
      && |res.robotPlans| == |plans|
      && (forall r :: 0 <= r < |plans| ==> res.robotPlans[r] == UnmergedPlanOf(r, plans[r]))
      && |res.goals| == |plans|
      && (forall r :: 0 <= r < |plans| ==> res.goals[r] == plans[r][|plans[r]| - 1])
  {
    var robotPlans: seq<RobotPlan> := [];
    var goals: seq<Waypoint> := [];
    var r := 0;
    while r < |plans|
      invariant 0 <= r <= |plans|
      invariant forall r' :: 0 <= r' < r ==> |plans[r']| > 0
      invariant |robotPlans| == r && forall r' :: 0 <= r' < r ==> robotPlans[r'] == UnmergedPlanOf(r', plans[r'])
      invariant |goals| == r && forall r' :: 0 <= r' < r ==> goals[r'] == plans[r'][|plans[r']| - 1]
    {
      var plan := plans[r];
      if |plan| == 0 {
        return NoWaypoints(r);
      }
      goals := goals + [plan[|plan| - 1]];
      var planNodes: seq<NodeId> := [];
      var planPositions: seq<Loc> := [];
      var nodeIdx := 0;
      var idx := 0;
      while idx < |plan| - 1
        invariant 0 <= idx <= |plan| - 1
        invariant nodeIdx == idx
        invariant planNodes == seq(idx, k => NodeId(r, k))
        invariant planPositions == seq(idx, k requires 0 <= k < idx => Position(plan[k]))
      {
        var item := plan[idx];
        planNodes := planNodes + [NodeId(r, nodeIdx)];
        planPositions := planPositions + [Loc(item.x, item.y)];
        nodeIdx := nodeIdx + 1;
        idx := idx + 1;
      }
      robotPlans := robotPlans + [RobotPlan(planNodes, planPositions)];
      r := r + 1;
    }
    return Planned(robotPlans, goals);
  }
}
