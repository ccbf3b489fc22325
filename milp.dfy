/**
 * One call of the re-ordering step: which dependency groups may still be
 * switched, the variables and precedence constraints handed to the solver,
 * and the rewrite of the ADG's type-2 edges from the solver's answer. The
 * solver itself is an oracle; only the symbolic shape of the problem is kept.
 */
module Milp {
  import opened AdgNodes
  import opened Graphs
  import opened DependencyGroups
  import opened Robots
  import opened AdgAnalysis

  /** How the rewrite reads the solver's value of one binary variable. */
  datatype Decision = One | Zero | NonBinary

  /** The rewrite's thresholds: above `0.999999999999999` is one, below `0.00001` is zero. */
  function DecisionOf(x: real): (d: Decision)
    ensures d == NonBinary <==> 0.00001 <= x <= 0.999999999999999
  {
    if x > 0.999999999999999 then One else if x < 0.00001 then Zero else NonBinary
  }

  /** Which value of binary variable `v` switches a precedence constraint on. */
  datatype Guard = Always | WhenKept(v: nat) | WhenSwitched(v: nat)

  /** The node `after` may finish only after `before`, when `guard` holds. */
  datatype Precedence = Precedence(before: NodeId, after: NodeId, guard: Guard)

  /**
   * The problem handed to the solver: per robot id the nodes that have a
   * time variable, the number of binary variables, and the precedences.
   */
  datatype Problem = Problem(continuous: map<nat, set<NodeId>>, binaryCount: nat, precedences: seq<Precedence>)

  /** The solver either raises or returns a value for every binary variable. */
  datatype SolverReply = Raised | Optimal(x: nat -> real)

  /**
   * `NotRun`: optimisation switched off. `SolverFailed`: the solver raised.
   * `UnknownRobot` and `MissingVariable` are the dictionary lookups that raise
   * for a robot without a current node or a node without a time variable.
   */
  datatype SolveOutcome = NotRun | SolverFailed | UnknownRobot | MissingVariable | Solved(problem: Problem)

  /** What the step reads from one robot: its id, its current node and its remaining plan. */
  datatype RobotView = RobotView(id: nat, node: NodeId, remaining: seq<NodeId>)

  ghost function ViewOf(r: Robot): RobotView
    reads r
    requires r.Valid()
  {
    RobotView(r.id, r.currentNode, r.RemainingPlan())
  }

  ghost predicate Views(robots: seq<Robot>, views: seq<RobotView>)
    reads robots
  {
    && |robots| == |views|
    && forall i :: 0 <= i < |robots| ==> robots[i].Valid() && ViewOf(robots[i]) == views[i]
  }

  ghost predicate Holds(groups: seq<DependencyGroup>, vals: seq<Group>)
    reads groups
  {
    |groups| == |vals| && forall j :: 0 <= j < |groups| ==> groups[j].Value() == vals[j]
  }

  ghost predicate Disjoint(a: seq<DependencyGroup>, b: seq<DependencyGroup>)
  {
    forall i, j :: 0 <= i < |a| && 0 <= j < |b| ==> a[i] != b[j]
  }

  // ---------------------------------------------------------------------------
  // Current positions and time variables

  /** Robot id to current node; a later robot with the same id overwrites an earlier one. */
  function PositionsOf(views: seq<RobotView>): map<nat, NodeId>
  {
    if views == [] then map[]
    else
      var n := |views| - 1;
      PositionsOf(views[..n])[views[n].id := views[n].node]
  }

  /** Every robot gets an entry, and a robot whose id no later robot repeats is mapped to its own current node. */
  lemma {:induction false} PositionsAt(views: seq<RobotView>, i: nat)
    requires i < |views|
    ensures views[i].id in PositionsOf(views)
    ensures (forall j :: i < j < |views| ==> views[j].id != views[i].id) ==>
      PositionsOf(views)[views[i].id] == views[i].node
  {
    var n := |views| - 1;
    if i < n {
      assert views[..n][i] == views[i];
      PositionsAt(views[..n], i);
    }
  }

  function NodeSet(s: seq<NodeId>): set<NodeId>
  {
    set n | n in s
  }

  /**
   * Robot id to the nodes that get a time variable: one per node of the
   * robot's remaining plan; a later robot with the same id overwrites.
   */
  function LiveOf(views: seq<RobotView>): map<nat, set<NodeId>>
  {
    if views == [] then map[]
    else
      var n := |views| - 1;
      LiveOf(views[..n])[views[n].id := NodeSet(views[n].remaining)]
  }

  /**
   * Every robot gets an entry, and a robot whose id no later robot repeats
   * has a time variable for exactly the nodes of its remaining plan.
   */
  lemma {:induction false} LiveAt(views: seq<RobotView>, i: nat)
    requires i < |views|
    ensures views[i].id in LiveOf(views)
    ensures (forall j :: i < j < |views| ==> views[j].id != views[i].id) ==>
      LiveOf(views)[views[i].id] == NodeSet(views[i].remaining)
  {
    var n := |views| - 1;
    if i < n {
      assert views[..n][i] == views[i];
      LiveAt(views[..n], i);
    }
  }

  /** The lookup of a node's time variable succeeds. */
  predicate Live(live: map<nat, set<NodeId>>, n: NodeId)
  {
    n.robot in live && n in live[n.robot]
  }

  method CollectPositions(robots: seq<Robot>, ghost views: seq<RobotView>) returns (pos: map<nat, NodeId>)
    requires Views(robots, views)
    ensures pos == PositionsOf(views)
  {
    pos := map[];
    var i := 0;
    while i < |robots|
      invariant 0 <= i <= |robots|
      invariant pos == PositionsOf(views[..i])
    {
      assert views[..i + 1][..i] == views[..i];
      pos := pos[robots[i].id := robots[i].currentNode];
      i := i + 1;
    }
    assert views[..i] == views;
  }

  method DefineVariables(robots: seq<Robot>, ghost views: seq<RobotView>) returns (live: map<nat, set<NodeId>>)
    requires Views(robots, views)
    ensures live == LiveOf(views)
  {
    live := map[];
    var i := 0;
    while i < |robots|
      invariant 0 <= i <= |robots|
      invariant live == LiveOf(views[..i])
    {
      assert views[..i + 1][..i] == views[..i];
      var plan := robots[i].RemainingPlan();
      var id := robots[i].id;
      var vars: set<NodeId> := {};
      var j := 0;
      while j < |plan|
        invariant 0 <= j <= |plan|
        invariant vars == NodeSet(plan[..j])
      {
        assert plan[..j + 1] == plan[..j] + [plan[j]];
        vars := vars + {plan[j]};
        j := j + 1;
      }
      assert plan[..j] == plan;
      live := live[id := vars];
      i := i + 1;
    }
    assert views[..i] == views;
  }

  // ---------------------------------------------------------------------------
  // Switchability

  /**
   * The current nodes a group's check looks up are there: the blocked robot's
   * for its edges, the blocking robot's for its reverse edges, and that of the
   * robot of its closest head.
   */
  predicate Known(g: Group, pos: map<nat, NodeId>)
  {
    && (g.edges != [] ==> g.robotBlocked in pos)
    && (g.reverseEdges != [] ==> g.robotBlocking in pos)
    && g.firstEdgeHead.robot in pos
  }

  predicate AllKnown(gs: seq<Group>, pos: map<nat, NodeId>)
  {
    forall j :: 0 <= j < |gs| ==> Known(gs[j], pos)
  }

  /**
   * A group may still be switched when neither robot has reached a node its
   * dependencies point to, in either direction, and its closest head lies
   * within `hControl` nodes of that robot's current node.
   */
  predicate IsSwitchable(g: Group, pos: map<nat, NodeId>, hControl: int)
    requires Known(g, pos)
  {
    && (forall k :: 0 <= k < |g.edges| ==> g.edges[k].head.idx > pos[g.robotBlocked].idx)
    && (forall k :: 0 <= k < |g.reverseEdges| ==> g.reverseEdges[k].head.idx > pos[g.robotBlocking].idx)
    && g.firstEdgeHead.idx <= pos[g.firstEdgeHead.robot].idx + hControl
  }

  method CheckGroup(g: DependencyGroup, pos: map<nat, NodeId>, hControl: int) returns (known: bool, switchable: bool)
    ensures known == Known(g.Value(), pos)
    ensures known ==> switchable == IsSwitchable(g.Value(), pos, hControl)
  {
    switchable := true;
    var k := 0;
    while k < |g.edges|
      invariant 0 <= k <= |g.edges|
      invariant k > 0 ==> g.robotBlocked in pos
      invariant switchable <==> forall j :: 0 <= j < k ==> g.edges[j].head.idx > pos[g.robotBlocked].idx
    {
      if g.robotBlocked !in pos {
        return false, false;
      }
      if g.edges[k].head.idx <= pos[g.robotBlocked].idx {
        switchable := false;
      }
      k := k + 1;
    }
    k := 0;
    var reverseOk := true;
    while k < |g.reverseEdges|
      invariant 0 <= k <= |g.reverseEdges|
      invariant k > 0 ==> g.robotBlocking in pos
      invariant reverseOk <==> forall j :: 0 <= j < k ==> g.reverseEdges[j].head.idx > pos[g.robotBlocking].idx
    {
      if g.robotBlocking !in pos {
        return false, false;
      }
      if g.reverseEdges[k].head.idx <= pos[g.robotBlocking].idx {
        reverseOk := false;
      }
      k := k + 1;
    }
    if g.firstEdgeHead.robot !in pos {
      return false, false;
    }
    known := true;
    switchable := switchable && reverseOk && g.firstEdgeHead.idx <= pos[g.firstEdgeHead.robot].idx + hControl;
  }

  function SwitchFlags(gs: seq<Group>, pos: map<nat, NodeId>, hControl: int): seq<bool>
    requires AllKnown(gs, pos)
  {
    seq(|gs|, j requires 0 <= j < |gs| => IsSwitchable(gs[j], pos, hControl))
  }

  /** The elements whose flag is `want`, in their original order. */
  function Select<T>(xs: seq<T>, flags: seq<bool>, want: bool): (ys: seq<T>)
    requires |xs| == |flags|
    ensures |ys| <= |xs|
  {
    if xs == [] then []
    else
      var n := |xs| - 1;
      Select(xs[..n], flags[..n], want) + (if flags[n] == want then [xs[n]] else [])
  }

  /** The positions whose flag is `want`, in increasing order. */
  function Places(flags: seq<bool>, want: bool): (ix: seq<nat>)
    ensures forall k :: 0 <= k < |ix| ==> ix[k] < |flags|
    ensures forall i: nat :: i in ix <==> i < |flags| && flags[i] == want
  {
    if flags == [] then []
    else
      var n := |flags| - 1;
      Places(flags[..n], want) + (if flags[n] == want then [n] else [])
  }

  /** The positions come in strictly increasing order. */
  lemma {:induction false} PlacesIncreasing(flags: seq<bool>, want: bool)
    ensures forall k, l :: 0 <= k < l < |Places(flags, want)| ==> Places(flags, want)[k] < Places(flags, want)[l]
  {
    if flags != [] {
      var n := |flags| - 1;
      PlacesIncreasing(flags[..n], want);
      var front := Places(flags[..n], want);
      var ix := Places(flags, want);
      assert ix == front + (if flags[n] == want then [n] else []);
      forall k, l | 0 <= k < l < |ix|
        ensures ix[k] < ix[l]
      {
        assert ix[k] == front[k];
        if l == |front| {
          assert front[k] < n;
        } else {
          assert ix[l] == front[l];
          assert front[k] < front[l];
        }
      }
    }
  }

  /** Element `k` of a selection is the input element at the `k`-th selected position. */
  lemma {:induction false} SelectAt<T>(xs: seq<T>, flags: seq<bool>, want: bool)
    requires |xs| == |flags|
    ensures |Select(xs, flags, want)| == |Places(flags, want)|
    ensures forall k :: 0 <= k < |Places(flags, want)| ==> Places(flags, want)[k] < |xs|
    ensures forall k :: 0 <= k < |Places(flags, want)| ==> Select(xs, flags, want)[k] == xs[Places(flags, want)[k]]
  {
    if xs != [] {
      var n := |xs| - 1;
      SelectAt(xs[..n], flags[..n], want);
      assert flags[..n] == flags[..n];
      forall k | 0 <= k < |Places(flags, want)|
        ensures Places(flags, want)[k] < |xs|
      {
        assert Places(flags, want)[k] in Places(flags, want);
      }
    }
  }

  lemma {:induction false} SelectWithin<T>(xs: seq<T>, flags: seq<bool>, want: bool)
    requires |xs| == |flags|
    ensures forall y :: y in Select(xs, flags, want) ==> y in xs
  {
    if xs != [] {
      var n := |xs| - 1;
      SelectWithin(xs[..n], flags[..n], want);
      assert forall y :: y in xs[..n] ==> y in xs;
    }
  }

  /** Each position is selected for exactly one of the two lists, so their lengths add up. */
  lemma {:induction false} PlacesSplit(flags: seq<bool>)
    ensures |Places(flags, true)| + |Places(flags, false)| == |flags|
  {
    if flags != [] {
      PlacesSplit(flags[..|flags| - 1]);
    }
  }

  /**
   * Every group goes into exactly one of the switchable and the fixed list,
   * the switchable list holding the switchable groups, each list in input order.
   */
  lemma GroupsPartitioned(gs: seq<Group>, pos: map<nat, NodeId>, hControl: int)
    requires AllKnown(gs, pos)
    ensures var flags := SwitchFlags(gs, pos, hControl);
      var sw := Places(flags, true);
      var fx := Places(flags, false);
      && |Select(gs, flags, true)| == |sw| && |Select(gs, flags, false)| == |fx|
      && |sw| + |fx| == |gs|
      && (forall j: nat :: j < |gs| ==> (j in sw <==> j !in fx))
      && (forall j: nat :: j in sw <==> j < |gs| && IsSwitchable(gs[j], pos, hControl))
      && (forall k :: 0 <= k < |sw| ==> Select(gs, flags, true)[k] == gs[sw[k]])
      && (forall k :: 0 <= k < |fx| ==> Select(gs, flags, false)[k] == gs[fx[k]])
  {
    var flags := SwitchFlags(gs, pos, hControl);
    SelectAt(gs, flags, true);
    SelectAt(gs, flags, false);
    PlacesSplit(flags);
  }

  method PartitionGroups(groups: seq<DependencyGroup>, ghost vals: seq<Group>, pos: map<nat, NodeId>, hControl: int)
    returns (known: bool, switchable: seq<DependencyGroup>, fixed: seq<DependencyGroup>)
    requires Holds(groups, vals)
    ensures known == AllKnown(vals, pos)
    ensures known ==> && switchable == Select(groups, SwitchFlags(vals, pos, hControl), true)
                      && fixed == Select(groups, SwitchFlags(vals, pos, hControl), false)
  {
    switchable, fixed := [], [];
    ghost var flags: seq<bool> := [];
    var j := 0;
    while j < |groups|
      invariant 0 <= j <= |groups|
      invariant AllKnown(vals[..j], pos) && flags == SwitchFlags(vals[..j], pos, hControl)
      invariant switchable == Select(groups[..j], flags, true)
      invariant fixed == Select(groups[..j], flags, false)
    {
      var ok, isSwitchable := CheckGroup(groups[j], pos, hControl);
      if !ok {
        return false, [], [];
      }
      PartitionStep(groups, vals, pos, hControl, j, flags, isSwitchable);
      flags := flags + [isSwitchable];
      if isSwitchable {
        switchable := switchable + [groups[j]];
      } else {
        fixed := fixed + [groups[j]];
      }
      j := j + 1;
    }
    assert groups[..j] == groups;
    assert vals[..j] == vals;
    known := true;
  }

  /** One group of the partition loop: its flag is appended and it joins the side the flag names. */
  lemma PartitionStep(groups: seq<DependencyGroup>, vals: seq<Group>, pos: map<nat, NodeId>, hControl: int,
                      j: nat, flags: seq<bool>, f: bool)
    requires |groups| == |vals| && j < |groups| && |flags| == j
    requires AllKnown(vals[..j], pos) && Known(vals[j], pos) && f == IsSwitchable(vals[j], pos, hControl)
    requires flags == SwitchFlags(vals[..j], pos, hControl)
    ensures AllKnown(vals[..j + 1], pos) && flags + [f] == SwitchFlags(vals[..j + 1], pos, hControl)
    ensures Select(groups[..j + 1], flags + [f], true) == Select(groups[..j], flags, true) + (if f then [groups[j]] else [])
    ensures Select(groups[..j + 1], flags + [f], false) == Select(groups[..j], flags, false) + (if f then [] else [groups[j]])
  {
    assert groups[..j + 1] == groups[..j] + [groups[j]];
    SelectSnoc(groups[..j], flags, groups[j], f);
    SwitchFlagsSnoc(vals, pos, hControl, j);
  }

  lemma SwitchFlagsSnoc(vals: seq<Group>, pos: map<nat, NodeId>, hControl: int, j: nat)
    requires j < |vals| && AllKnown(vals[..j], pos) && Known(vals[j], pos)
    ensures AllKnown(vals[..j + 1], pos)
    ensures SwitchFlags(vals[..j + 1], pos, hControl) == SwitchFlags(vals[..j], pos, hControl) + [IsSwitchable(vals[j], pos, hControl)]
  {
    assert vals[..j + 1] == vals[..j] + [vals[j]];
  }

  lemma SelectSnoc<T>(xs: seq<T>, flags: seq<bool>, x: T, f: bool)
    requires |xs| == |flags|
    ensures Select(xs + [x], flags + [f], true) == Select(xs, flags, true) + (if f then [x] else [])
    ensures Select(xs + [x], flags + [f], false) == Select(xs, flags, false) + (if f then [] else [x])
  {
    assert (xs + [x])[..|xs|] == xs;
    assert (flags + [f])[..|flags|] == flags;
  }

  // ---------------------------------------------------------------------------
  // Precedence constraints

  /** One precedence per edge, in order, all under `guard`. */
  function Guarded(es: seq<Edge>, guard: Guard): (ps: seq<Precedence>)
    ensures |ps| == |es|
    ensures forall k :: 0 <= k < |es| ==> ps[k] == Precedence(es[k].tail, es[k].head, guard)
  {
    if es == [] then [] else Guarded(es[..|es| - 1], guard) + [Precedence(Last(es).tail, Last(es).head, guard)]
  }

  predicate EndpointsLive(es: seq<Edge>, live: map<nat, set<NodeId>>)
  {
    forall k :: 0 <= k < |es| ==> Live(live, es[k].tail) && Live(live, es[k].head)
  }

  predicate GroupLive(g: Group, live: map<nat, set<NodeId>>)
  {
    EndpointsLive(g.edges, live) && EndpointsLive(g.reverseEdges, live)
  }

  /**
   * The constraints of switchable group `v`: its edges hold while its binary
   * variable is 0, its reverse edges while it is 1.
   */
  function GroupPrecedences(g: Group, v: nat): seq<Precedence>
  {
    Guarded(g.edges, WhenKept(v)) + Guarded(g.reverseEdges, WhenSwitched(v))
  }

  /** The constraints of the switchable groups, binary variable `k` belonging to group `k`. */
  function SwitchablePrecedences(gs: seq<Group>): seq<Precedence>
  {
    if gs == [] then [] else SwitchablePrecedences(gs[..|gs| - 1]) + GroupPrecedences(gs[|gs| - 1], |gs| - 1)
  }

  /** The edges among `es` whose two endpoints have time variables, in order. */
  function LiveEdges(es: seq<Edge>, live: map<nat, set<NodeId>>): (r: seq<Edge>)
    ensures forall e {:trigger e in r} {:trigger e in es} :: e in r <==> e in es && Live(live, e.tail) && Live(live, e.head)
  {
    if es == [] then []
    else
      var e := Last(es);
      LiveEdges(es[..|es| - 1], live) + (if Live(live, e.tail) && Live(live, e.head) then [e] else [])
  }

  /** The edges a group puts into the graph in its current direction. */
  function Installed(g: Group): seq<Edge>
  {
    if g.originalDirection then g.edges else g.reverseEdges
  }

  /** The unconditional constraints of the fixed groups: installed edges whose endpoints have variables. */
  function FixedPrecedences(gs: seq<Group>, live: map<nat, set<NodeId>>): seq<Precedence>
  {
    if gs == [] then []
    else FixedPrecedences(gs[..|gs| - 1], live) + Guarded(LiveEdges(Installed(gs[|gs| - 1]), live), Always)
  }

  /**
   * A fixed group never makes the lookup fail: every constraint it adds
   * joins two nodes with time variables, and it holds whatever the binary variables are.
   */
  lemma {:induction false} FixedPrecedencesLive(gs: seq<Group>, live: map<nat, set<NodeId>>)
    ensures forall p {:trigger p in FixedPrecedences(gs, live)} :: p in FixedPrecedences(gs, live) ==> Live(live, p.before) && Live(live, p.after) && p.guard == Always
  {
    if gs != [] {
      FixedPrecedencesLive(gs[..|gs| - 1], live);
      var es := LiveEdges(Installed(gs[|gs| - 1]), live);
      forall p {:trigger p in Guarded(es, Always)} | p in Guarded(es, Always)
        ensures Live(live, p.before) && Live(live, p.after) && p.guard == Always
      {
        var k :| 0 <= k < |es| && Guarded(es, Always)[k] == p;
        assert es[k] in es;
      }
    }
  }

  method EdgeConstraints(es: seq<Edge>, guard: Guard, live: map<nat, set<NodeId>>) returns (ok: bool, ps: seq<Precedence>)
    ensures ok == EndpointsLive(es, live)
    ensures ok ==> ps == Guarded(es, guard)
  {
    ps := [];
    var k := 0;
    while k < |es|
      invariant 0 <= k <= |es|
      invariant EndpointsLive(es[..k], live)
      invariant ps == Guarded(es[..k], guard)
    {
      if !Live(live, es[k].tail) || !Live(live, es[k].head) {
        return false, [];
      }
      assert es[..k + 1][..k] == es[..k];
      ps := ps + [Precedence(es[k].tail, es[k].head, guard)];
      k := k + 1;
    }
    assert es[..k] == es;
    ok := true;
  }

  method SwitchableConstraints(switchable: seq<DependencyGroup>, ghost sw: seq<Group>, live: map<nat, set<NodeId>>)
    returns (ok: bool, ps: seq<Precedence>)
    requires Holds(switchable, sw)
    ensures ok == forall k :: 0 <= k < |sw| ==> GroupLive(sw[k], live)
    ensures ok ==> ps == SwitchablePrecedences(sw)
  {
    ps := [];
    var k := 0;
    while k < |switchable|
      invariant 0 <= k <= |switchable|
      invariant forall j :: 0 <= j < k ==> GroupLive(sw[j], live)
      invariant ps == SwitchablePrecedences(sw[..k])
    {
      var kept, keptPs := EdgeConstraints(switchable[k].edges, WhenKept(k), live);
      if !kept {
        return false, [];
      }
      var switched, switchedPs := EdgeConstraints(switchable[k].reverseEdges, WhenSwitched(k), live);
      if !switched {
        return false, [];
      }
      assert sw[..k + 1][..k] == sw[..k];
      ps := ps + (keptPs + switchedPs);
      k := k + 1;
    }
    assert sw[..k] == sw;
    ok := true;
  }

  method LiveEdgeConstraints(es: seq<Edge>, live: map<nat, set<NodeId>>) returns (ps: seq<Precedence>)
    ensures ps == Guarded(LiveEdges(es, live), Always)
  {
    ps := [];
    var k := 0;
    while k < |es|
      invariant 0 <= k <= |es|
      invariant ps == Guarded(LiveEdges(es[..k], live), Always)
    {
      assert es[..k + 1][..k] == es[..k];
      if Live(live, es[k].tail) && Live(live, es[k].head) {
        ps := ps + [Precedence(es[k].tail, es[k].head, Always)];
      }
      // a missing variable is skipped
      k := k + 1;
    }
    assert es[..k] == es;
  }

  method FixedConstraints(fixed: seq<DependencyGroup>, ghost fx: seq<Group>, live: map<nat, set<NodeId>>)
    returns (ps: seq<Precedence>)
    requires Holds(fixed, fx)
    ensures ps == FixedPrecedences(fx, live)
  {
    ps := [];
    var k := 0;
    while k < |fixed|
      invariant 0 <= k <= |fixed|
      invariant ps == FixedPrecedences(fx[..k], live)
    {
      var groupPs;
      if fixed[k].originalDirection {
        groupPs := LiveEdgeConstraints(fixed[k].edges, live);
      } else {
        groupPs := LiveEdgeConstraints(fixed[k].reverseEdges, live);
      }
      assert fx[..k + 1][..k] == fx[..k];
      ps := ps + groupPs;
      k := k + 1;
    }
    assert fx[..k] == fx;
  }

  // ---------------------------------------------------------------------------
  // Rewrite of the type-2 edges

  /** A group after the solver's decision: one reverses it, zero restores it, a non-binary value leaves it. */
  function Decide(g: Group, d: Decision): Group
  {
    match d
    case One => g.(originalDirection := false)
    case Zero => g.(originalDirection := true)
    case NonBinary => g
  }

  function SetOf(es: seq<Edge>): set<Edge>
  {
    set e | e in es
  }

  /** The type-2 edges the fixed groups put back: each group's edges in its current direction. */
  function FixedEdges(gs: seq<Group>): set<Edge>
  {
    if gs == [] then {} else FixedEdges(gs[..|gs| - 1]) + SetOf(Installed(gs[|gs| - 1]))
  }

  /** An edge is put back for the fixed groups exactly when some fixed group has it in its current direction. */
  lemma {:induction false} FixedEdgesMembers(gs: seq<Group>)
    ensures forall e :: e in FixedEdges(gs) <==> exists j :: 0 <= j < |gs| && e in Installed(gs[j])
  {
    if gs != [] {
      var n := |gs| - 1;
      FixedEdgesMembers(gs[..n]);
      assert forall j :: 0 <= j < n ==> gs[..n][j] == gs[j];
    }
  }

  /** The edges a switchable group puts back under decision `d`. */
  function Contribution(g: Group, d: Decision): set<Edge>
  {
    if d == NonBinary then {} else SetOf(Installed(Decide(g, d)))
  }

  /**
   * The type-2 edges the switchable groups put back: group `k`'s edges in the
   * direction binary variable `k` chooses, none when that value is not binary.
   */
  function SwitchedEdges(gs: seq<Group>, x: nat -> real): set<Edge>
  {
    if gs == [] then {}
    else
      var n := |gs| - 1;
      SwitchedEdges(gs[..n], x) + Contribution(gs[n], DecisionOf(x(n)))
  }

  /**
   * An edge is put back for the switchable groups exactly when some group
   * `k` has it in the direction binary variable `k` chose, that value being binary.
   */
  lemma {:induction false} SwitchedEdgesMembers(gs: seq<Group>, x: nat -> real)
    ensures forall e :: e in SwitchedEdges(gs, x) <==>
      exists k :: 0 <= k < |gs| && DecisionOf(x(k)) != NonBinary && e in Installed(Decide(gs[k], DecisionOf(x(k))))
  {
    if gs != [] {
      var n := |gs| - 1;
      SwitchedEdgesMembers(gs[..n], x);
      assert forall j :: 0 <= j < n ==> gs[..n][j] == gs[j];
    }
  }

  /**
   * After the rewrite a group decided one contributes exactly its reverse
   * edges, a group decided zero exactly its edges; a fixed group keeps
   * contributing the edges of its unchanged direction.
   */
  lemma DecidedInstalls(g: Group, d: Decision)
    ensures d == One ==> Installed(Decide(g, d)) == g.reverseEdges && !Decide(g, d).originalDirection
    ensures d == Zero ==> Installed(Decide(g, d)) == g.edges && Decide(g, d).originalDirection
    ensures Decide(g, d).edges == g.edges && Decide(g, d).reverseEdges == g.reverseEdges
    ensures d == NonBinary ==> Decide(g, d) == g
  {
  }

  method AddEdges(edges2: set<Edge>, es: seq<Edge>) returns (r: set<Edge>)
    ensures r == edges2 + SetOf(es)
  {
    r := edges2;
    var k := 0;
    while k < |es|
      invariant 0 <= k <= |es|
      invariant r == edges2 + SetOf(es[..k])
    {
      assert es[..k + 1] == es[..k] + [es[k]];
      r := r + {es[k]};
      k := k + 1;
    }
    assert es[..k] == es;
  }

  method RewriteFixed(fixed: seq<DependencyGroup>, ghost fx: seq<Group>) returns (edges2: set<Edge>)
    requires Holds(fixed, fx)
    ensures edges2 == FixedEdges(fx)
  {
    edges2 := {};
    var k := 0;
    while k < |fixed|
      invariant 0 <= k <= |fixed|
      invariant edges2 == FixedEdges(fx[..k])
    {
      assert fx[..k + 1][..k] == fx[..k];
      if fixed[k].originalDirection {
        edges2 := AddEdges(edges2, fixed[k].edges);
      } else {
        edges2 := AddEdges(edges2, fixed[k].reverseEdges);
      }
      k := k + 1;
    }
    assert fx[..k] == fx;
  }

  /** The rewrite of one switchable group from the value of its binary variable. */
  method DecideGroup(g: DependencyGroup, value: real, edges2: set<Edge>) returns (r: set<Edge>)
    modifies g`originalDirection
    ensures g.Value() == Decide(old(g.Value()), DecisionOf(value))
    ensures r == edges2 + Contribution(old(g.Value()), DecisionOf(value))
  {
    r := edges2;
    if value > 0.999999999999999 {
      g.originalDirection := false;
      r := AddEdges(r, g.reverseEdges);
    } else if value < 0.00001 {
      g.originalDirection := true;
      r := AddEdges(r, g.edges);
    }
    // otherwise the value is not binary: the group is left as it is and adds no edge
  }

  method RewriteSwitchable(switchable: seq<DependencyGroup>, ghost sw: seq<Group>, x: nat -> real, edges2: set<Edge>)
    returns (r: set<Edge>)
    requires Holds(switchable, sw) && Distinct(switchable)
    modifies switchable
    ensures r == edges2 + SwitchedEdges(sw, x)
    ensures forall k :: 0 <= k < |sw| ==> switchable[k].Value() == Decide(sw[k], DecisionOf(x(k)))
  {
    r := edges2;
    var k := 0;
    while k < |switchable|
      invariant 0 <= k <= |switchable|
      invariant r == edges2 + SwitchedEdges(sw[..k], x)
      invariant forall j :: 0 <= j < k ==> switchable[j].Value() == Decide(sw[j], DecisionOf(x(j)))
      invariant forall j :: k <= j < |switchable| ==> switchable[j].Value() == sw[j]
    {
      assert sw[..k + 1][..k] == sw[..k];
      r := DecideGroup(switchable[k], x(k), r);
      k := k + 1;
    }
    assert sw[..k] == sw;
  }

  // ---------------------------------------------------------------------------
  // The whole step

  /** Number of switchable groups before group `j`: the index of group `j`'s binary variable. */
  function Rank(flags: seq<bool>, j: nat): nat
    requires j <= |flags|
  {
    |Places(flags[..j], true)|
  }

  /** Every group's value after the rewrite: a switchable group decided by its own binary variable. */
  function Redecide(vals: seq<Group>, flags: seq<bool>, x: nat -> real): (r: seq<Group>)
    requires |vals| == |flags|
    ensures |r| == |vals|
  {
    seq(|vals|, j requires 0 <= j < |vals| =>
      if flags[j] then Decide(vals[j], DecisionOf(x(Rank(flags, j)))) else vals[j])
  }

  /** What one call does to the type-2 edges and to the groups' values. */
  datatype StepResult = StepResult(outcome: SolveOutcome, type2: set<Edge>, groups: seq<Group>)

  /**
   * The step on values: nothing when switched off; the partition, the
   * problem, the solver's answer and the rewrite otherwise. Every raising
   * lookup and a raising solver leave edges and groups as they were.
   */
  function MilpStep(views: seq<RobotView>, vals: seq<Group>, type2: set<Edge>, hControl: int, run: bool,
                    solve: Problem -> SolverReply): StepResult
  {
    if !run then StepResult(NotRun, type2, vals)
    else
      var pos := PositionsOf(views);
      if !AllKnown(vals, pos) then StepResult(UnknownRobot, type2, vals)
      else Reorder(views, vals, SwitchFlags(vals, pos, hControl), type2, solve)
  }

  /** The step once the groups are split by `flags`. */
  function Reorder(views: seq<RobotView>, vals: seq<Group>, flags: seq<bool>, type2: set<Edge>,
                   solve: Problem -> SolverReply): StepResult
    requires |flags| == |vals|
  {
    var sw := Select(vals, flags, true);
    var fx := Select(vals, flags, false);
    var live := LiveOf(views);
    if !AllGroupsLive(sw, live) then StepResult(MissingVariable, type2, vals)
    else
      var problem := Problem(live, |sw|, SwitchablePrecedences(sw) + FixedPrecedences(fx, live));
      match solve(problem)
      case Raised => StepResult(SolverFailed, type2, vals)
      case Optimal(x) => StepResult(Solved(problem), FixedEdges(fx) + SwitchedEdges(sw, x), Redecide(vals, flags, x))
  }

  predicate AllGroupsLive(gs: seq<Group>, live: map<nat, set<NodeId>>)
  {
    forall k :: 0 <= k < |gs| ==> GroupLive(gs[k], live)
  }

  /**
   * The re-ordering step. With `run` false nothing happens. Otherwise the
   * groups are split, the problem is built and handed to `solve`; when the
   * solver answers, every type-2 edge is removed and the edges of the fixed
   * groups and of the decided switchable groups are put back.
   */
  method SolveMilp(robots: seq<Robot>, groups: seq<DependencyGroup>, adg: Graph, hControl: int, run: bool,
                   solve: Problem -> SolverReply, ghost views: seq<RobotView>, ghost vals: seq<Group>)
    returns (outcome: SolveOutcome)
    requires Views(robots, views)
    requires Holds(groups, vals) && Distinct(groups)
    modifies adg`type2, groups
    ensures var r := MilpStep(views, vals, old(adg.type2), hControl, run, solve);
      outcome == r.outcome && adg.type2 == r.type2 && Holds(groups, r.groups)
  {
    if !run {
      return NotRun;
    }
    var pos := CollectPositions(robots, views);
    var known, switchable, fixed := PartitionGroups(groups, vals, pos, hControl);
    if !known {
      return UnknownRobot;
    }
    outcome := ReorderGroups(robots, groups, switchable, fixed, adg, solve, views, vals, SwitchFlags(vals, pos, hControl));
  }

  method ReorderGroups(robots: seq<Robot>, groups: seq<DependencyGroup>, switchable: seq<DependencyGroup>,
                       fixed: seq<DependencyGroup>, adg: Graph, solve: Problem -> SolverReply,
                       ghost views: seq<RobotView>, ghost vals: seq<Group>, ghost flags: seq<bool>)
    returns (outcome: SolveOutcome)
    requires Views(robots, views)
    requires Holds(groups, vals) && Distinct(groups) && |flags| == |groups|
    requires switchable == Select(groups, flags, true) && fixed == Select(groups, flags, false)
    modifies adg`type2, groups
    ensures var r := Reorder(views, vals, flags, old(adg.type2), solve);
      outcome == r.outcome && adg.type2 == r.type2 && Holds(groups, r.groups)
  {
    SelectedGroups(groups, vals, flags);
    SelectWithin(groups, flags, true);
    var allLive, problem := BuildProblem(robots, switchable, fixed, views, Select(vals, flags, true), Select(vals, flags, false));
    if !allLive {
      return MissingVariable;
    }
    var reply := solve(problem);
    if reply.Raised? {
      return SolverFailed;
    }
    ApplyDecisions(adg, groups, switchable, fixed, reply.x, vals, flags);
    outcome := Solved(problem);
  }

  /** Defines the variables and the constraints; fails when a switchable group's lookup fails. */
  method BuildProblem(robots: seq<Robot>, switchable: seq<DependencyGroup>, fixed: seq<DependencyGroup>,
                      ghost views: seq<RobotView>, ghost sw: seq<Group>, ghost fx: seq<Group>)
    returns (ok: bool, problem: Problem)
    requires Views(robots, views) && Holds(switchable, sw) && Holds(fixed, fx)
    ensures ok == AllGroupsLive(sw, LiveOf(views))
    ensures ok ==> problem == Problem(LiveOf(views), |sw|, SwitchablePrecedences(sw) + FixedPrecedences(fx, LiveOf(views)))
  {
    var live := DefineVariables(robots, views);
    var allLive, switchablePs := SwitchableConstraints(switchable, sw, live);
    if !allLive {
      return false, Problem(map[], 0, []);
    }
    var fixedPs := FixedConstraints(fixed, fx, live);
    problem := Problem(live, |switchable|, switchablePs + fixedPs);
    ok := true;
  }

  method ApplyDecisions(adg: Graph, groups: seq<DependencyGroup>, switchable: seq<DependencyGroup>,
                        fixed: seq<DependencyGroup>, x: nat -> real, ghost vals: seq<Group>, ghost flags: seq<bool>)
    requires |vals| == |flags| == |groups|
    requires switchable == Select(groups, flags, true) && fixed == Select(groups, flags, false)
    requires Holds(switchable, Select(vals, flags, true)) && Holds(fixed, Select(vals, flags, false))
    requires Distinct(switchable) && Disjoint(switchable, fixed)
    requires forall k :: 0 <= k < |switchable| ==> switchable[k] in groups
    modifies adg`type2, groups
    ensures adg.type2 == FixedEdges(Select(vals, flags, false)) + SwitchedEdges(Select(vals, flags, true), x)
    ensures Holds(groups, Redecide(vals, flags, x))
  {
    ghost var sw := Select(vals, flags, true);
    ghost var fx := Select(vals, flags, false);
    var edges2 := RewriteFixed(fixed, fx);
    edges2 := RewriteSwitchable(switchable, sw, x, edges2);
    // every type-2 edge was removed before the rewrite put these back
    adg.type2 := edges2;
    RedecideHolds(groups, vals, flags, x);
  }

  /** Position `j` holding `want` is the entry of the selected positions at index "count of earlier `want`s". */
  lemma {:induction false} PlaceOfRank(flags: seq<bool>, want: bool, j: nat)
    requires j < |flags| && flags[j] == want
    ensures |Places(flags[..j], want)| < |Places(flags, want)|
    ensures Places(flags, want)[|Places(flags[..j], want)|] == j
  {
    var n := |flags| - 1;
    var front := Places(flags[..n], want);
    assert Places(flags, want) == front + (if flags[n] == want then [n] else []);
    if j < n {
      assert flags[..n][..j] == flags[..j];
      PlaceOfRank(flags[..n], want, j);
      assert Places(flags, want)[|Places(flags[..j], want)|] == front[|Places(flags[..j], want)|];
    } else {
      assert flags[..n] == flags[..j];
    }
  }

  /** The per-list facts after the rewrite give every group's value in input order. */
  lemma RedecideHolds(groups: seq<DependencyGroup>, vals: seq<Group>, flags: seq<bool>, x: nat -> real)
    requires |groups| == |vals| == |flags|
    requires Holds(Select(groups, flags, false), Select(vals, flags, false))
    requires forall k :: 0 <= k < |Select(vals, flags, true)| && k < |Select(groups, flags, true)| ==>
      Select(groups, flags, true)[k].Value() == Decide(Select(vals, flags, true)[k], DecisionOf(x(k)))
    ensures Holds(groups, Redecide(vals, flags, x))
  {
    forall j | 0 <= j < |groups|
      ensures groups[j].Value() == Redecide(vals, flags, x)[j]
    {
      RedecideAt(groups, vals, flags, x, j);
    }
  }

  lemma RedecideAt(groups: seq<DependencyGroup>, vals: seq<Group>, flags: seq<bool>, x: nat -> real, j: nat)
    requires |groups| == |vals| == |flags| && j < |groups|
    requires Holds(Select(groups, flags, false), Select(vals, flags, false))
    requires forall k :: 0 <= k < |Select(vals, flags, true)| && k < |Select(groups, flags, true)| ==>
      Select(groups, flags, true)[k].Value() == Decide(Select(vals, flags, true)[k], DecisionOf(x(k)))
    ensures groups[j].Value() == Redecide(vals, flags, x)[j]
  {
    var want := flags[j];
    PlaceOfRank(flags, want, j);
    var k := |Places(flags[..j], want)|;
    SelectAt(groups, flags, want);
    SelectAt(vals, flags, want);
    assert Select(groups, flags, want)[k] == groups[j];
    assert Select(vals, flags, want)[k] == vals[j];
    if want {
      assert k == Rank(flags, j);
      assert groups[j].Value() == Decide(vals[j], DecisionOf(x(k)));
    } else {
      assert groups[j].Value() == vals[j];
    }
  }

  /**
   * The two lists of a partition hold the groups at the selected positions:
   * each has the values of the matching selection of values, no group is
   * repeated, and no group is in both.
   */
  lemma SelectedGroups(groups: seq<DependencyGroup>, vals: seq<Group>, flags: seq<bool>)
    requires Holds(groups, vals) && Distinct(groups) && |flags| == |groups|
    ensures Holds(Select(groups, flags, true), Select(vals, flags, true))
    ensures Holds(Select(groups, flags, false), Select(vals, flags, false))
    ensures Distinct(Select(groups, flags, true))
    ensures Disjoint(Select(groups, flags, true), Select(groups, flags, false))
  {
    SelectHolds(groups, vals, flags, true);
    SelectHolds(groups, vals, flags, false);
    SelectApart(groups, flags);
  }

  /** A selection of groups has the values of the same selection of values. */
  lemma SelectHolds(groups: seq<DependencyGroup>, vals: seq<Group>, flags: seq<bool>, want: bool)
    requires Holds(groups, vals) && |flags| == |groups|
    ensures Holds(Select(groups, flags, want), Select(vals, flags, want))
  {
    SelectAt(groups, flags, want);
    SelectAt(vals, flags, want);
  }

  /** Selections from distinct groups repeat no group, and the two selections share none. */
  lemma SelectApart(groups: seq<DependencyGroup>, flags: seq<bool>)
    requires Distinct(groups) && |flags| == |groups|
    ensures Distinct(Select(groups, flags, true))
    ensures Disjoint(Select(groups, flags, true), Select(groups, flags, false))
  {
    SelectAt(groups, flags, true);
    SelectAt(groups, flags, false);
    PlacesIncreasing(flags, true);
    var sw := Places(flags, true);
    var fx := Places(flags, false);
    forall i, j | 0 <= i < |sw| && 0 <= j < |fx|
      ensures Select(groups, flags, true)[i] != Select(groups, flags, false)[j]
    {
      assert sw[i] in sw && fx[j] in fx;
      assert flags[sw[i]] && !flags[fx[j]];
    }
  }

  // ---------------------------------------------------------------------------
  // Properties of the step

  /**
   * Switched off, the step reports that it did not run; every raising lookup
   * and a raising solver leave the type-2 edges and every group as they were;
   * a successful step changes only the directions of switchable groups.
   */
  lemma StepOutcomes(views: seq<RobotView>, vals: seq<Group>, type2: set<Edge>, hControl: int, run: bool,
                     solve: Problem -> SolverReply)
    ensures var r := MilpStep(views, vals, type2, hControl, run, solve);
      && (!run ==> r.outcome == NotRun)
      && (!r.outcome.Solved? ==> r.type2 == type2 && r.groups == vals)
      && |r.groups| == |vals|
      && forall j :: 0 <= j < |vals| ==> r.groups[j] == vals[j].(originalDirection := r.groups[j].originalDirection)
  {
    if run && AllKnown(vals, PositionsOf(views)) {
      var flags := SwitchFlags(vals, PositionsOf(views), hControl);
      var sw := Select(vals, flags, true);
      var fx := Select(vals, flags, false);
      var live := LiveOf(views);
      if AllGroupsLive(sw, live) {
        var problem := Problem(live, |sw|, SwitchablePrecedences(sw) + FixedPrecedences(fx, live));
        if solve(problem).Optimal? {
          RedecideDirections(vals, flags, solve(problem).x);
        }
      }
    }
  }

  /** The rewrite changes only the direction of a group, and only of a switchable one. */
  lemma RedecideDirections(vals: seq<Group>, flags: seq<bool>, x: nat -> real)
    requires |flags| == |vals|
    ensures forall j :: 0 <= j < |vals| ==>
      && Redecide(vals, flags, x)[j] == vals[j].(originalDirection := Redecide(vals, flags, x)[j].originalDirection)
      && (!flags[j] ==> Redecide(vals, flags, x)[j] == vals[j])
  {
    forall j | 0 <= j < |vals|
      ensures Redecide(vals, flags, x)[j] == vals[j].(originalDirection := Redecide(vals, flags, x)[j].originalDirection)
    {
      if flags[j] {
        var d := DecisionOf(x(Rank(flags, j)));
        assert Redecide(vals, flags, x)[j] == Decide(vals[j], d);
      }
    }
  }

  /**
   * After a successful rewrite the type-2 edges are exactly the edges that
   * the groups have in their new direction, counting every fixed group and
   * every switchable group whose binary variable came back binary.
   */
  lemma RewrittenEdges(vals: seq<Group>, flags: seq<bool>, x: nat -> real)
    requires |flags| == |vals|
    ensures forall e :: e in FixedEdges(Select(vals, flags, false)) + SwitchedEdges(Select(vals, flags, true), x) <==>
      exists j :: 0 <= j < |vals| && Counted(flags, x, j) && e in Installed(Redecide(vals, flags, x)[j])
  {
    forall e | e in FixedEdges(Select(vals, flags, false)) + SwitchedEdges(Select(vals, flags, true), x)
      ensures exists j :: 0 <= j < |vals| && Counted(flags, x, j) && e in Installed(Redecide(vals, flags, x)[j])
    {
      EdgeHasGroup(vals, flags, x, e);
    }
    forall e, j | 0 <= j < |vals| && Counted(flags, x, j) && e in Installed(Redecide(vals, flags, x)[j])
      ensures e in FixedEdges(Select(vals, flags, false)) + SwitchedEdges(Select(vals, flags, true), x)
    {
      GroupEdgeIsPut(vals, flags, x, j, e);
    }
  }

  /** Group `j` puts its edges back: it is fixed, or its binary variable came back binary. */
  predicate Counted(flags: seq<bool>, x: nat -> real, j: nat)
    requires j < |flags|
  {
    !flags[j] || DecisionOf(x(Rank(flags, j))) != NonBinary
  }

  lemma EdgeHasGroup(vals: seq<Group>, flags: seq<bool>, x: nat -> real, e: Edge)
    requires |flags| == |vals|
    requires e in FixedEdges(Select(vals, flags, false)) + SwitchedEdges(Select(vals, flags, true), x)
    ensures exists j :: 0 <= j < |vals| && Counted(flags, x, j) && e in Installed(Redecide(vals, flags, x)[j])
  {
    var sw := Select(vals, flags, true);
    var fx := Select(vals, flags, false);
    if e in FixedEdges(fx) {
      FixedEdgesMembers(fx);
      SelectAt(vals, flags, false);
      var k :| 0 <= k < |fx| && e in Installed(fx[k]);
      var j := Places(flags, false)[k];
      assert j in Places(flags, false);
      assert Counted(flags, x, j) && e in Installed(Redecide(vals, flags, x)[j]);
    } else {
      SwitchedEdgesMembers(sw, x);
      SelectAt(vals, flags, true);
      var k :| 0 <= k < |sw| && DecisionOf(x(k)) != NonBinary && e in Installed(Decide(sw[k], DecisionOf(x(k))));
      var j := Places(flags, true)[k];
      assert j in Places(flags, true);
      RankOfPlace(flags, true, k);
      assert Counted(flags, x, j) && e in Installed(Redecide(vals, flags, x)[j]);
    }
  }

  lemma GroupEdgeIsPut(vals: seq<Group>, flags: seq<bool>, x: nat -> real, j: nat, e: Edge)
    requires |flags| == |vals| && j < |vals|
    requires Counted(flags, x, j) && e in Installed(Redecide(vals, flags, x)[j])
    ensures e in FixedEdges(Select(vals, flags, false)) + SwitchedEdges(Select(vals, flags, true), x)
  {
    PlaceOfRank(flags, flags[j], j);
    var k := |Places(flags[..j], flags[j])|;
    SelectAt(vals, flags, flags[j]);
    if flags[j] {
      SwitchedEdgesMembers(Select(vals, flags, true), x);
      assert Select(vals, flags, true)[k] == vals[j];
    } else {
      FixedEdgesMembers(Select(vals, flags, false));
      assert Select(vals, flags, false)[k] == vals[j];
    }
  }

  /** The `k`-th selected position has `k` selected positions before it. */
  lemma RankOfPlace(flags: seq<bool>, want: bool, k: nat)
    requires k < |Places(flags, want)|
    ensures Places(flags, want)[k] < |flags|
    ensures |Places(flags[..Places(flags, want)[k]], want)| == k
  {
    var j := Places(flags, want)[k];
    assert j in Places(flags, want);
    PlaceOfRank(flags, want, j);
    PlacesIncreasing(flags, want);
    var ix := Places(flags, want);
    assert ix[|Places(flags[..j], want)|] == j == ix[k];
  }

  /**
   * The constraints of the switchable groups are those of each group `k`
   * under binary variable `k`: its edges guarded by `k` kept, its reverse
   * edges by `k` switched.
   */
  lemma {:induction false} SwitchableGuards(gs: seq<Group>)
    ensures forall p :: p in SwitchablePrecedences(gs) <==> exists k :: 0 <= k < |gs| && p in GroupPrecedences(gs[k], k)
  {
    if gs != [] {
      var n := |gs| - 1;
      SwitchableGuards(gs[..n]);
      assert forall k :: 0 <= k < n ==> gs[..n][k] == gs[k];
    }
  }

  /** A group's constraints: one per edge guarded by its variable kept, one per reverse edge guarded by it switched. */
  lemma GroupGuards(g: Group, v: nat)
    ensures forall p :: p in GroupPrecedences(g, v) <==>
      || (exists k :: 0 <= k < |g.edges| && p == Precedence(g.edges[k].tail, g.edges[k].head, WhenKept(v)))
      || (exists k :: 0 <= k < |g.reverseEdges| && p == Precedence(g.reverseEdges[k].tail, g.reverseEdges[k].head, WhenSwitched(v)))
  {
    var a := Guarded(g.edges, WhenKept(v));
    var b := Guarded(g.reverseEdges, WhenSwitched(v));
    forall p | p in GroupPrecedences(g, v)
      ensures || (exists k :: 0 <= k < |g.edges| && p == Precedence(g.edges[k].tail, g.edges[k].head, WhenKept(v)))
              || (exists k :: 0 <= k < |g.reverseEdges| && p == Precedence(g.reverseEdges[k].tail, g.reverseEdges[k].head, WhenSwitched(v)))
    {
      if p in a {
        var k :| 0 <= k < |a| && a[k] == p;
      } else {
        var k :| 0 <= k < |b| && b[k] == p;
      }
    }
    forall p | || (exists k :: 0 <= k < |g.edges| && p == Precedence(g.edges[k].tail, g.edges[k].head, WhenKept(v)))
               || (exists k :: 0 <= k < |g.reverseEdges| && p == Precedence(g.reverseEdges[k].tail, g.reverseEdges[k].head, WhenSwitched(v)))
      ensures p in GroupPrecedences(g, v)
    {
      if k :| 0 <= k < |g.edges| && p == Precedence(g.edges[k].tail, g.edges[k].head, WhenKept(v)) {
        assert a[k] == p;
      } else {
        var k :| 0 <= k < |g.reverseEdges| && p == Precedence(g.reverseEdges[k].tail, g.reverseEdges[k].head, WhenSwitched(v));
        assert b[k] == p;
      }
    }
  }

  /**
   * Robot `i` is listed at index `i`, stands on node `idx` of its own chain of
   * `lens[i]` nodes, and has the rest of that chain as its remaining plan.
   */
  ghost predicate OnChains(views: seq<RobotView>, lens: seq<nat>)
  {
    && |lens| == |views|
    && forall i :: 0 <= i < |views| ==>
         && views[i].id == i && views[i].node.robot == i && 0 <= views[i].node.idx < lens[i]
         && views[i].remaining == seq(lens[i] - views[i].node.idx, k => NodeId(i, views[i].node.idx + k))
  }

  /** No endpoint of the group's edges is the last node of its robot's chain, as the graph builder guarantees. */
  ghost predicate WithinChains(g: Group, lens: seq<nat>)
  {
    forall k :: 0 <= k < |g.edges| ==>
      && g.edges[k].tail.robot < |lens| && 0 <= g.edges[k].tail.idx && g.edges[k].tail.idx + 1 < lens[g.edges[k].tail.robot]
      && g.edges[k].head.robot < |lens| && 0 <= g.edges[k].head.idx && g.edges[k].head.idx + 1 < lens[g.edges[k].head.robot]
  }

  /** Node `m` of robot `r`'s chain has a time variable when `m` is not behind the robot. */
  lemma LiveOnChain(views: seq<RobotView>, lens: seq<nat>, r: nat, m: int)
    requires OnChains(views, lens) && r < |views|
    requires views[r].node.idx <= m < lens[r]
    ensures Live(LiveOf(views), NodeId(r, m))
    ensures r in PositionsOf(views) && PositionsOf(views)[r] == views[r].node
  {
    LiveAt(views, r);
    PositionsAt(views, r);
    var c := views[r].node.idx;
    assert views[r].remaining[m - c] == NodeId(r, m);
  }

  /**
   * For a switchable group whose reverse edges are the per-edge reverses of
   * its edges, every endpoint of every edge and reverse edge is at or ahead
   * of its robot, so every time-variable lookup of the group succeeds.
   */
  lemma SwitchableLookupsSucceed(views: seq<RobotView>, lens: seq<nat>, g: Group, hControl: int)
    requires OnChains(views, lens)
    requires ChainShaped(g) && g.reverseEdges == ReverseAll(g.edges) && WithinChains(g, lens)
    requires Known(g, PositionsOf(views)) && IsSwitchable(g, PositionsOf(views), hControl)
    ensures GroupLive(g, LiveOf(views))
  {
    forall k | 0 <= k < |g.edges|
      ensures Live(LiveOf(views), g.edges[k].tail) && Live(LiveOf(views), g.edges[k].head)
      ensures Live(LiveOf(views), g.reverseEdges[k].tail) && Live(LiveOf(views), g.reverseEdges[k].head)
    {
      EdgeLookupsSucceed(views, lens, g, hControl, k);
    }
  }

  lemma EdgeLookupsSucceed(views: seq<RobotView>, lens: seq<nat>, g: Group, hControl: int, k: nat)
    requires OnChains(views, lens)
    requires ChainShaped(g) && g.reverseEdges == ReverseAll(g.edges) && WithinChains(g, lens)
    requires Known(g, PositionsOf(views)) && IsSwitchable(g, PositionsOf(views), hControl)
    requires k < |g.edges|
    ensures Live(LiveOf(views), g.edges[k].tail) && Live(LiveOf(views), g.edges[k].head)
    ensures Live(LiveOf(views), g.reverseEdges[k].tail) && Live(LiveOf(views), g.reverseEdges[k].head)
  {
    var e := g.edges[k];
    ChainIndices(g, k);
    var a, b := e.tail.robot, e.head.robot;
    PositionsAt(views, a);
    PositionsAt(views, b);
    assert a == g.robotBlocking && b == g.robotBlocked;
    assert g.reverseEdges[k] == ReverseEdge(e);
    assert e.tail.idx - 1 > views[a].node.idx;
    assert e.head.idx > views[b].node.idx;
    LiveOnChain(views, lens, a, e.tail.idx);
    LiveOnChain(views, lens, b, e.head.idx);
    LiveOnChain(views, lens, a, e.tail.idx - 1);
    LiveOnChain(views, lens, b, e.head.idx + 1);
  }
}
