/**
 * The closed-loop simulation: every epoch re-solves the ordering, refuses a
 * cyclic ADG, refreshes the set of delayed robots and lets every robot whose
 * dependencies are finished move on by one node.
 */
module Driver {
  import opened AdgNodes
  import opened Graphs
  import opened DependencyGroups
  import opened Robots
  import opened AdgAnalysis
  import opened Milp

  /**
   * `Completed`: the loop ended, with the summed time to goal. `Aborted`: the
   * re-ordering step returned no status and the run returns 0. `Deadlock`:
   * the cycle check raised in epoch `epoch`. `Crashed`: a lookup raised.
   */
  datatype RunResult = Completed(total: nat, epochs: nat, timeToGoal: seq<nat>, done: seq<bool>) | Aborted | Deadlock(epoch: nat) | Crashed

  /** Everything the loop changes, as values. */
  datatype Sim = Sim(
    nodes: map<NodeId, AdgNode>,
    type2: set<Edge>,
    groups: seq<Group>,
    progress: seq<Progress>,
    timeToGoal: seq<nat>,
    done: seq<bool>,
    delayed: set<nat>)

  /** The fixed inputs of a run; `draws(k)` is the delay set drawn in epoch `k`. */
  datatype Params = Params(
    type1: set<Edge>,
    hControl: int,
    run: bool,
    solve: Problem -> SolverReply,
    delayAmount: int,
    draws: nat -> set<nat>,
    timeout: int)

  ghost predicate Fits(plans: seq<Plan>, s: Sim)
  {
    && |s.progress| == |plans| && |s.timeToGoal| == |plans| && |s.done| == |plans|
    && forall i {:trigger s.progress[i]} :: 0 <= i < |plans| ==> Consistent(plans[i], s.progress[i])
  }

  function Sum(s: seq<nat>): nat
  {
    if s == [] then 0 else Sum(s[..|s| - 1]) + s[|s| - 1]
  }

  predicate AllTrue(s: seq<bool>)
  {
    forall i :: 0 <= i < |s| ==> s[i]
  }

  // ---------------------------------------------------------------------------
  // One robot's turn and one pass over the robots

  /** A robot moves on: not in the first epoch, every predecessor of its node finished, and not delayed. */
  predicate MayAdvance(nodes: map<NodeId, AdgNode>, preds: set<NodeId>, k: nat, delayed: set<nat>, id: nat)
    requires forall p :: p in preds ==> p in nodes
  {
    k > 0 && (forall p :: p in preds ==> nodes[p].status == Finished) && id !in delayed
  }

  /**
   * Robot `i`'s turn: when it may advance its node is marked finished and it
   * takes one step; then it is charged one more epoch, or recorded as done.
   * A node without data makes the lookup raise.
   */
  ghost function Turn(plans: seq<Plan>, edges: set<Edge>, k: nat, s: Sim, i: nat): (r: Option<Sim>)
    requires Fits(plans, s) && i < |plans|
    ensures r.Some? ==> Fits(plans, r.value)
  {
    var node := s.progress[i].node;
    var preds := Predecessors(edges, node);
    if node !in s.nodes || !(forall p :: p in preds ==> p in s.nodes) then None
    else
      var s1 := if MayAdvance(s.nodes, preds, k, s.delayed, i)
                then s.(nodes := s.nodes[node := s.nodes[node].(status := Finished)],
                        progress := s.progress[i := Step(plans[i], s.progress[i])])
                else s;
      if s1.progress[i].status != Done then Some(s1.(timeToGoal := s1.timeToGoal[i := s1.timeToGoal[i] + 1]))
      else Some(s1.(done := s1.done[i := true]))
  }

  /**
   * The turns of robots `i`, `i + 1`, ... to the last, in list order, each
   * seeing the nodes the earlier ones finished; the first raising lookup
   * ends the pass.
   */
  ghost function Pass(plans: seq<Plan>, edges: set<Edge>, k: nat, s: Sim, i: nat): (r: Option<Sim>)
    requires Fits(plans, s) && i <= |plans|
    ensures r.Some? ==> Fits(plans, r.value)
    decreases |plans| - i
  {
    if i == |plans| then Some(s)
    else
      match Turn(plans, edges, k, s, i)
      case None => None
      case Some(s1) => Pass(plans, edges, k, s1, i + 1)
  }

  /** Nodes only ever change by being marked finished; no node appears or disappears. */
  ghost predicate OnlyFinishes(a: map<NodeId, AdgNode>, b: map<NodeId, AdgNode>)
  {
    a.Keys == b.Keys && forall n :: n in a ==> b[n] == a[n] || b[n] == a[n].(status := Finished)
  }

  predicate IsFinished(nodes: map<NodeId, AdgNode>, n: NodeId)
  {
    n in nodes && nodes[n].status == Finished
  }

  /** What a turn does to the nodes: the robot's current node is finished exactly when it may advance. */
  lemma TurnNodes(plans: seq<Plan>, edges: set<Edge>, k: nat, s: Sim, i: nat)
    requires Fits(plans, s) && i < |plans| && Turn(plans, edges, k, s, i).Some?
    ensures var r := Turn(plans, edges, k, s, i).value;
      var node := s.progress[i].node;
      var preds := Predecessors(edges, node);
      && node in s.nodes && (forall q :: q in preds ==> q in s.nodes)
      && (MayAdvance(s.nodes, preds, k, s.delayed, i) ==>
            r.progress[i] == Step(plans[i], s.progress[i]) && r.nodes == s.nodes[node := s.nodes[node].(status := Finished)])
      && (!MayAdvance(s.nodes, preds, k, s.delayed, i) ==> r.progress[i] == s.progress[i] && r.nodes == s.nodes)
      && OnlyFinishes(s.nodes, r.nodes)
      && r.type2 == s.type2 && r.groups == s.groups && r.delayed == s.delayed
  {
  }

  /** What a turn does to robot `j`: only robot `i` may step, and only robot `i` is charged. */
  lemma TurnRobot(plans: seq<Plan>, edges: set<Edge>, k: nat, s: Sim, i: nat, j: nat)
    requires Fits(plans, s) && i < |plans| && j < |plans| && Turn(plans, edges, k, s, i).Some?
    ensures var r := Turn(plans, edges, k, s, i).value;
      && (j != i ==> r.progress[j] == s.progress[j] && r.timeToGoal[j] == s.timeToGoal[j] && r.done[j] == s.done[j])
      && (j == i ==>
            && (r.progress[j] == s.progress[j] || r.progress[j] == Step(plans[j], s.progress[j]))
            && r.timeToGoal[j] == s.timeToGoal[j] + (if r.progress[j].status != Done then 1 else 0)
            && r.done[j] == (s.done[j] || r.progress[j].status == Done))
  {
  }

  lemma OnlyFinishesTransitive(a: map<NodeId, AdgNode>, b: map<NodeId, AdgNode>, c: map<NodeId, AdgNode>)
    requires OnlyFinishes(a, b) && OnlyFinishes(b, c)
    ensures OnlyFinishes(a, c)
    ensures forall n :: IsFinished(b, n) ==> IsFinished(c, n)
  {
    forall n | n in a
      ensures c[n] == a[n] || c[n] == a[n].(status := Finished)
    {
      assert b[n] == a[n] || b[n] == a[n].(status := Finished);
    }
  }

  /**
   * A pass only marks nodes finished, and none at all in the first epoch;
   * the ADG's type-2 edges, the groups and the delay set are untouched.
   */
  lemma {:induction false} PassNodes(plans: seq<Plan>, edges: set<Edge>, k: nat, s: Sim, i: nat)
    requires Fits(plans, s) && i <= |plans| && Pass(plans, edges, k, s, i).Some?
    ensures var r := Pass(plans, edges, k, s, i).value;
      && OnlyFinishes(s.nodes, r.nodes)
      && (k == 0 ==> r.nodes == s.nodes)
      && r.type2 == s.type2 && r.groups == s.groups && r.delayed == s.delayed
    decreases |plans| - i
  {
    if i < |plans| {
      TurnNodes(plans, edges, k, s, i);
      var s1 := Turn(plans, edges, k, s, i).value;
      PassNodes(plans, edges, k, s1, i + 1);
      OnlyFinishesTransitive(s.nodes, s1.nodes, Pass(plans, edges, k, s1, i + 1).value.nodes);
    }
  }

  /**
   * Robot `j` in a pass over robots `i`, `i + 1`, ...: untouched when it is
   * earlier; otherwise it takes at most one step, is charged one epoch unless
   * it ends the pass done, and is recorded as done when it is.
   */
  lemma {:induction false} PassRobot(plans: seq<Plan>, edges: set<Edge>, k: nat, s: Sim, i: nat, j: nat)
    requires Fits(plans, s) && i <= |plans| && j < |plans| && Pass(plans, edges, k, s, i).Some?
    ensures var r := Pass(plans, edges, k, s, i).value;
      && (j < i ==> r.progress[j] == s.progress[j] && r.timeToGoal[j] == s.timeToGoal[j] && r.done[j] == s.done[j])
      && (i <= j ==>
            && (r.progress[j] == s.progress[j] || r.progress[j] == Step(plans[j], s.progress[j]))
            && r.timeToGoal[j] == s.timeToGoal[j] + (if r.progress[j].status != Done then 1 else 0)
            && r.done[j] == (s.done[j] || r.progress[j].status == Done))
    decreases |plans| - i
  {
    if i < |plans| {
      TurnRobot(plans, edges, k, s, i, j);
      PassRobot(plans, edges, k, Turn(plans, edges, k, s, i).value, i + 1, j);
    }
  }

  /** A robot that moves in its turn was allowed to: its node and all its predecessors are then finished. */
  lemma TurnMoved(plans: seq<Plan>, edges: set<Edge>, k: nat, s: Sim, i: nat)
    requires Fits(plans, s) && i < |plans| && Turn(plans, edges, k, s, i).Some?
    ensures var s1 := Turn(plans, edges, k, s, i).value;
      var node := s.progress[i].node;
      s1.progress[i] != s.progress[i] ==>
        && k > 0 && i !in s.delayed
        && IsFinished(s1.nodes, node)
        && forall q :: q in Predecessors(edges, node) ==> IsFinished(s1.nodes, q)
  {
  }

  lemma FinishedStays(a: map<NodeId, AdgNode>, b: map<NodeId, AdgNode>, n: NodeId)
    requires OnlyFinishes(a, b) && IsFinished(a, n)
    ensures IsFinished(b, n)
  {
  }

  /**
   * A robot moves in a pass only when the epoch is not the first and it is
   * not delayed, and by the end of the pass the node it left and every
   * predecessor of that node are finished.
   */
  lemma {:induction false} PassMoved(plans: seq<Plan>, edges: set<Edge>, k: nat, s: Sim, i: nat, j: nat, r: Sim)
    requires Fits(plans, s) && i <= j < |plans| && Pass(plans, edges, k, s, i) == Some(r)
    ensures r.progress[j] != s.progress[j] ==>
      && k > 0 && j !in s.delayed
      && IsFinished(r.nodes, s.progress[j].node)
      && forall q :: q in Predecessors(edges, s.progress[j].node) ==> IsFinished(r.nodes, q)
    decreases |plans| - i
  {
    var s1 := PassUnfold(plans, edges, k, s, i, r);
    if i < j {
      TurnRobot(plans, edges, k, s, i, j);
      PassMoved(plans, edges, k, s1, i + 1, j, r);
    } else {
      AfterOwnTurn(plans, edges, k, s1, i, r);
      MovedInOwnTurn(plans, edges, k, s, i, s1, r);
    }
  }

  /** A pass that gets past robot `i`'s turn continues from the state that turn leaves. */
  lemma PassUnfold(plans: seq<Plan>, edges: set<Edge>, k: nat, s: Sim, i: nat, r: Sim) returns (s1: Sim)
    requires Fits(plans, s) && i < |plans| && Pass(plans, edges, k, s, i) == Some(r)
    ensures Turn(plans, edges, k, s, i) == Some(s1)
    ensures Fits(plans, s1) && Pass(plans, edges, k, s1, i + 1) == Some(r)
    ensures s1.delayed == s.delayed
  {
    s1 := Turn(plans, edges, k, s, i).value;
  }

  /** The rest of a pass after robot `i`'s turn leaves robot `i` alone and only finishes nodes. */
  lemma AfterOwnTurn(plans: seq<Plan>, edges: set<Edge>, k: nat, s1: Sim, i: nat, r: Sim)
    requires Fits(plans, s1) && i < |plans| && Pass(plans, edges, k, s1, i + 1) == Some(r)
    ensures OnlyFinishes(s1.nodes, r.nodes) && i < |r.progress| && r.progress[i] == s1.progress[i]
  {
    PassRobot(plans, edges, k, s1, i + 1, i);
    PassNodes(plans, edges, k, s1, i + 1);
  }

  /** The case of `PassMoved` where the robot's own turn opens the pass. */
  lemma MovedInOwnTurn(plans: seq<Plan>, edges: set<Edge>, k: nat, s: Sim, i: nat, s1: Sim, r: Sim)
    requires Fits(plans, s) && i < |plans| && Turn(plans, edges, k, s, i) == Some(s1)
    requires OnlyFinishes(s1.nodes, r.nodes) && i < |r.progress| && r.progress[i] == s1.progress[i]
    ensures r.progress[i] != s.progress[i] ==>
      && k > 0 && i !in s.delayed
      && IsFinished(r.nodes, s.progress[i].node)
      && forall q :: q in Predecessors(edges, s.progress[i].node) ==> IsFinished(r.nodes, q)
  {
    if r.progress[i] != s.progress[i] {
      var node := s.progress[i].node;
      TurnMoved(plans, edges, k, s, i);
      FinishedStays(s1.nodes, r.nodes, node);
      forall q | q in Predecessors(edges, node)
        ensures IsFinished(r.nodes, q)
      {
        FinishedStays(s1.nodes, r.nodes, q);
      }
    }
  }

  // ---------------------------------------------------------------------------
  // One epoch and the whole run

  /** What the re-ordering step reads from the robots: robot `i` at its node, with the rest of its plan. */
  ghost function ViewsOfSim(plans: seq<Plan>, s: Sim): seq<RobotView>
    requires Fits(plans, s)
  {
    seq(|plans|, i requires 0 <= i < |plans| && Fits(plans, s) =>
      RobotView(i, s.progress[i].node, plans[i].nodes[s.progress[i].idx..]))
  }

  datatype Next = Continue(s: Sim) | Stop(result: RunResult)

  /**
   * The delay set in force: a fresh draw in every epoch divisible by
   * `delayAmount`, else the previous one. A zero amount makes the test raise;
   * for a negative one the floor remainder is zero exactly when the amount
   * divides `k`, as Dafny's Euclidean remainder is.
   */
  function DelaySet(p: Params, k: nat, previous: set<nat>): set<nat>
    requires p.delayAmount != 0
  {
    if k % p.delayAmount == 0 then p.draws(k) else previous
  }

  /** The sign of the amount does not matter: `-d` redraws in exactly the epochs `d` does. */
  lemma DelaySetSign(p: Params, k: nat, previous: set<nat>)
    requires p.delayAmount != 0
    ensures DelaySet(p.(delayAmount := -p.delayAmount), k, previous) == DelaySet(p, k, previous)
  {
    var d := p.delayAmount;
    var q, r := k / d, k % d;
    assert k == (-q) * (-d) + r && 0 <= r < (if d < 0 then -d else d);
    EuclideanUnique(k, -d, -q, r);
  }

  /** Epoch `k == q * |d| + r` redraws when `r == 0` and keeps the previous set for `0 < r < |d|`. */
  lemma DelayPeriod(p: Params, k: nat, q: int, r: int, previous: set<nat>)
    requires p.delayAmount != 0
    requires k == q * (if p.delayAmount < 0 then -p.delayAmount else p.delayAmount) + r
    requires 0 <= r < (if p.delayAmount < 0 then -p.delayAmount else p.delayAmount)
    ensures DelaySet(p, k, previous) == if r == 0 then p.draws(k) else previous
  {
    var d := p.delayAmount;
    if d < 0 {
      NegateFactor(q, d);
      EuclideanUnique(k, d, -q, r);
    } else {
      EuclideanUnique(k, d, q, r);
    }
  }

  lemma NegateFactor(q: int, d: int)
    ensures q * (-d) == (-q) * d
  {
  }

  /** The quotient and remainder of Euclidean division are the only ones with `0 <= r < |d|`. */
  lemma {:induction false} EuclideanUnique(k: int, d: int, q: int, r: int)
    requires d != 0 && k == q * d + r && 0 <= r < (if d < 0 then -d else d)
    ensures k % d == r
  {
    var q0, r0 := k / d, k % d;
    assert k == q0 * d + r0;
    Distribute(q, q0, d);
    NoSmallMultiple(q - q0, d, r0 - r);
  }

  lemma Distribute(x: int, y: int, d: int)
    ensures (x - y) * d == x * d - y * d
  {
  }

  /** A non-zero multiple of `d` is at least `|d|` away from zero. */
  lemma NoSmallMultiple(x: int, d: int, m: int)
    requires d != 0 && m == x * d && -(if d < 0 then -d else d) < m < (if d < 0 then -d else d)
    ensures x == 0
  {
    if x > 0 {
      assert x * d == (x - 1) * d + d;
      SameSignProduct(x - 1, d);
    } else if x < 0 {
      assert x * d == (x + 1) * d - d;
      SameSignProduct(-(x + 1), d);
    }
  }

  lemma SameSignProduct(y: nat, d: int)
    ensures d >= 0 ==> y * d >= 0
    ensures d <= 0 ==> y * d <= 0
  {
  }

  /** The status report at the start of an epoch looks up every robot's current node. */
  ghost predicate OnKnownNodes(s: Sim)
  {
    forall i :: 0 <= i < |s.progress| ==> s.progress[i].node in s.nodes
  }

  /** The re-ordering step on the robots' views and the groups of state `s`. */
  ghost function Reordered(plans: seq<Plan>, p: Params, s: Sim): StepResult
    requires Fits(plans, s)
  {
    MilpStep(ViewsOfSim(plans, s), s.groups, s.type2, p.hControl, p.run, p.solve)
  }

  /**
   * The checks before any robot moves, given the step's result `m`: a missing
   * node in the status report crashes; no solver status ends the run; a
   * raising lookup in the step crashes; a cycle in the ADG raises. `None`
   * when all pass.
   */
  ghost function Screen(p: Params, k: nat, s: Sim, m: StepResult): Option<RunResult>
  {
    if !OnKnownNodes(s) then Some(Crashed)
    else if m.outcome == NotRun || m.outcome == SolverFailed then Some(Aborted)
    else if !m.outcome.Solved? then Some(Crashed)
    else if HasCycle(p.type1 + m.type2) then Some(Deadlock(k))
    else None
  }

  /** Epoch `k`: the checks; then the re-ordered ADG, the delay set and the robots' turns. */
  ghost function EpochStep(plans: seq<Plan>, p: Params, k: nat, s: Sim): (r: Next)
    requires Fits(plans, s)
    ensures r.Continue? ==> Fits(plans, r.s) && p.delayAmount != 0
  {
    var m := Reordered(plans, p, s);
    match Screen(p, k, s, m)
    case Some(result) => Stop(result)
    case None =>
      if p.delayAmount == 0 then Stop(Crashed)
      else
      var s1 := s.(type2 := m.type2, groups := m.groups, delayed := DelaySet(p, k, s.delayed));
      match Pass(plans, p.type1 + m.type2, k, s1, 0)
      case None => Stop(Crashed)
      case Some(s2) => Continue(s2)
  }

  /** The loop from epoch `k` on: it runs while some robot is not done and `k` is below the timeout. */
  ghost function Run(plans: seq<Plan>, p: Params, k: nat, s: Sim): (r: RunResult)
    requires Fits(plans, s)
    ensures r.Completed? ==> r.total == Sum(r.timeToGoal) && |r.timeToGoal| == |plans| && |r.done| == |plans|
    ensures r.Completed? ==> k <= r.epochs && (k < p.timeout ==> r.epochs <= p.timeout)
    ensures r.Completed? && r.epochs < p.timeout ==> AllTrue(r.done)
    decreases p.timeout - k
  {
    if AllTrue(s.done) || k >= p.timeout then Completed(Sum(s.timeToGoal), k, s.timeToGoal, s.done)
    else
      match EpochStep(plans, p, k, s)
      case Stop(r) => r
      case Continue(s2) => Run(plans, p, k + 1, s2)
  }

  /**
   * An epoch that goes on has passed the checks: the re-ordered ADG is
   * acyclic and is the one the step produced, and the delay set is the one
   * in force; a deadlock is reported exactly for a cyclic re-ordered ADG
   * when the earlier checks passed.
   */
  lemma EpochChecks(plans: seq<Plan>, p: Params, k: nat, s: Sim)
    requires Fits(plans, s)
    ensures var m := Reordered(plans, p, s);
      var e := EpochStep(plans, p, k, s);
      && (e.Continue? ==>
            && OnKnownNodes(s) && m.outcome.Solved?
            && !HasCycle(p.type1 + e.s.type2) && e.s.type2 == m.type2 && e.s.groups == m.groups
            && p.delayAmount != 0 && e.s.delayed == DelaySet(p, k, s.delayed))
      && (e == Stop(Deadlock(k)) <==> OnKnownNodes(s) && m.outcome.Solved? && HasCycle(p.type1 + m.type2))
  {
    var m := Reordered(plans, p, s);
    if Screen(p, k, s, m).None? && p.delayAmount != 0 {
      var s1 := s.(type2 := m.type2, groups := m.groups, delayed := DelaySet(p, k, s.delayed));
      if Pass(plans, p.type1 + m.type2, k, s1, 0).Some? {
        PassNodes(plans, p.type1 + m.type2, k, s1, 0);
      }
    }
  }

  /**
   * With the re-ordering switched off, the step returns no status and the
   * run ends in its first epoch, unless it is already over.
   */
  lemma NotRunAborts(plans: seq<Plan>, p: Params, k: nat, s: Sim)
    requires Fits(plans, s) && !p.run && OnKnownNodes(s)
    requires !AllTrue(s.done) && k < p.timeout
    ensures Run(plans, p, k, s) == Aborted
  {
  }

  /**
   * A zero delay amount makes the remainder test of the first epoch that
   * passes the checks raise, so a run that still has work never completes.
   */
  lemma ZeroDelayNeverCompletes(plans: seq<Plan>, p: Params, k: nat, s: Sim)
    requires Fits(plans, s) && p.delayAmount == 0
    requires !AllTrue(s.done) && k < p.timeout
    ensures !Run(plans, p, k, s).Completed?
  {
  }

  /** From `s` to `s2` every robot is charged at most one epoch, and a robot once done stays done. */
  ghost predicate ChargedOnce(s: Sim, s2: Sim)
  {
    && |s2.timeToGoal| == |s.timeToGoal| && |s2.done| == |s.done|
    && (forall j :: 0 <= j < |s.timeToGoal| ==> s.timeToGoal[j] <= s2.timeToGoal[j] <= s.timeToGoal[j] + 1)
    && (forall j :: 0 <= j < |s.done| ==> s.done[j] ==> s2.done[j])
  }

  lemma EpochCharges(plans: seq<Plan>, p: Params, k: nat, s: Sim)
    requires Fits(plans, s) && EpochStep(plans, p, k, s).Continue?
    ensures ChargedOnce(s, EpochStep(plans, p, k, s).s)
  {
    var m := Reordered(plans, p, s);
    var s1 := s.(type2 := m.type2, groups := m.groups, delayed := DelaySet(p, k, s.delayed));
    forall j | 0 <= j < |plans|
      ensures var r := Pass(plans, p.type1 + m.type2, k, s1, 0).value;
        s.timeToGoal[j] <= r.timeToGoal[j] <= s.timeToGoal[j] + 1 && (s.done[j] ==> r.done[j])
    {
      PassRobot(plans, p.type1 + m.type2, k, s1, 0, j);
    }
  }

  /**
   * In a run that completes, every robot is charged at most one per epoch,
   * and a robot once done stays done.
   */
  lemma {:induction false} CompletedRun(plans: seq<Plan>, p: Params, k: nat, s: Sim)
    requires Fits(plans, s) && Run(plans, p, k, s).Completed?
    ensures var c := Run(plans, p, k, s);
      forall j :: 0 <= j < |plans| ==>
           && s.timeToGoal[j] <= c.timeToGoal[j] <= s.timeToGoal[j] + (c.epochs - k)
           && (s.done[j] ==> c.done[j])
    decreases p.timeout - k
  {
    if !AllTrue(s.done) && k < p.timeout {
      var e := EpochStep(plans, p, k, s);
      assert e.Continue? && Run(plans, p, k, s) == Run(plans, p, k + 1, e.s);
      EpochCharges(plans, p, k, s);
      CompletedRun(plans, p, k + 1, e.s);
    }
  }

  // ---------------------------------------------------------------------------
  // The objects

  ghost predicate DistinctRobots(robots: seq<Robot>)
  {
    forall i, j :: 0 <= i < j < |robots| ==> robots[i] != robots[j]
  }

  ghost predicate RobotsOk(robots: seq<Robot>)
    reads robots
  {
    && (forall i :: 0 <= i < |robots| ==> robots[i].Valid() && robots[i].id == i)
    && DistinctRobots(robots)
  }

  ghost function PlansOf(robots: seq<Robot>): (plans: seq<Plan>)
    reads robots
    ensures |plans| == |robots|
  {
    seq(|robots|, i reads robots requires 0 <= i < |robots| => robots[i].Itinerary())
  }

  ghost function ProgressOf(robots: seq<Robot>): (ps: seq<Progress>)
    reads robots
    ensures |ps| == |robots|
  {
    seq(|robots|, i reads robots requires 0 <= i < |robots| => robots[i].State())
  }

  ghost function ValuesOf(groups: seq<DependencyGroup>): (vals: seq<Group>)
    reads groups
    ensures Holds(groups, vals)
  {
    seq(|groups|, j reads groups requires 0 <= j < |groups| => groups[j].Value())
  }

  /** The simulation state held by the objects and the loop's own variables. */
  ghost function SimOf(robots: seq<Robot>, groups: seq<DependencyGroup>, adg: Graph,
                       timeToGoal: seq<nat>, done: seq<bool>, delayed: set<nat>): Sim
    reads robots, groups, adg
  {
    Sim(adg.nodes, adg.type2, ValuesOf(groups), ProgressOf(robots), timeToGoal, done, delayed)
  }

  lemma RobotsFit(robots: seq<Robot>, s: Sim)
    requires RobotsOk(robots) && s.progress == ProgressOf(robots)
    requires |s.timeToGoal| == |robots| && |s.done| == |robots|
    ensures Fits(PlansOf(robots), s)
    ensures Views(robots, ViewsOfSim(PlansOf(robots), s))
  {
  }

  // ---------------------------------------------------------------------------
  // Methods

  /** Whether every predecessor has data, and whether all of them are finished. */
  method DependenciesMet(nodes: map<NodeId, AdgNode>, preds: set<NodeId>) returns (known: bool, met: bool)
    ensures known == forall p :: p in preds ==> p in nodes
    ensures known ==> (met == forall p :: p in preds ==> nodes[p].status == Finished)
  {
    var rest := preds;
    met := true;
    while rest != {}
      invariant rest <= preds
      invariant forall p :: p in preds - rest ==> p in nodes
      invariant met == forall p :: p in preds - rest ==> nodes[p].status == Finished
      decreases |rest|
    {
      var p :| p in rest;
      if p !in nodes {
        return false, false;
      }
      if nodes[p].status != Finished {
        met := false;
      }
      rest := rest - {p};
    }
    known := true;
  }

  /** Whether every robot's current node has data. */
  method NodesKnown(robots: seq<Robot>, adg: Graph) returns (known: bool)
    ensures known == forall i :: 0 <= i < |robots| ==> robots[i].currentNode in adg.nodes
  {
    var i := 0;
    while i < |robots|
      invariant 0 <= i <= |robots|
      invariant forall j :: 0 <= j < i ==> robots[j].currentNode in adg.nodes
    {
      if robots[i].currentNode !in adg.nodes {
        return false;
      }
      i := i + 1;
    }
    known := true;
  }

  /** Robot `i`'s turn on the objects. */
  method TakeTurn(robot: Robot, adg: Graph, k: nat, delayed: set<nat>, timeToGoal: seq<nat>, done: seq<bool>,
                  ghost plans: seq<Plan>, ghost s: Sim, ghost i: nat)
    returns (ok: bool, timeToGoal': seq<nat>, done': seq<bool>)
    requires Fits(plans, s) && i < |plans|
    requires robot.Valid() && robot.id == i && robot.Itinerary() == plans[i] && robot.State() == s.progress[i]
    requires adg.nodes == s.nodes && timeToGoal == s.timeToGoal && done == s.done && delayed == s.delayed
    modifies robot, adg`nodes
    ensures robot.Valid()
    ensures var r := Turn(plans, adg.Edges(), k, s, i);
      ok == r.Some? && (ok ==> r.value == s.(nodes := adg.nodes, progress := s.progress[i := robot.State()],
                                             timeToGoal := timeToGoal', done := done'))
  {
    var node := robot.currentNode;
    if node !in adg.nodes {
      return false, [], [];
    }
    var known, met := DependenciesMet(adg.nodes, Predecessors(adg.Edges(), node));
    if !known {
      return false, [], [];
    }
    if met && k > 0 && robot.id !in delayed {
      adg.nodes := adg.nodes[node := adg.nodes[node].(status := Finished)];
      robot.Advance();
    }
    timeToGoal', done' := timeToGoal, done;
    if !robot.IsDone() {
      timeToGoal' := timeToGoal'[robot.id := timeToGoal'[robot.id] + 1];
    } else {
      done' := done'[robot.id := true];
    }
    ok := true;
  }

  lemma ProgressOfEach(robots: seq<Robot>, ps: seq<Progress>)
    requires |ps| == |robots| && forall j :: 0 <= j < |robots| ==> robots[j].State() == ps[j]
    ensures ProgressOf(robots) == ps
  {
  }

  lemma PlansOfEach(robots: seq<Robot>, plans: seq<Plan>)
    requires |plans| == |robots| && forall j :: 0 <= j < |robots| ==> robots[j].Itinerary() == plans[j]
    ensures PlansOf(robots) == plans
  {
  }

  /** Robot `j` of the objects is robot `j` of the values, for every `j`. */
  ghost predicate Tracks(robots: seq<Robot>, plans: seq<Plan>, ps: seq<Progress>)
    reads robots
  {
    && |robots| == |plans| == |ps|
    && forall j :: 0 <= j < |robots| ==>
      robots[j].Valid() && robots[j].id == j && robots[j].Itinerary() == plans[j] && robots[j].State() == ps[j]
  }

  /**
   * The pass after `i` turns: the state `w` the values reach, held by the
   * graph's nodes and the counters; the rest of `s` is as it was.
   */
  ghost predicate PassAt(plans: seq<Plan>, edges: set<Edge>, k: nat, s: Sim, i: nat, w: Sim,
                         nodes: map<NodeId, AdgNode>, timeToGoal: seq<nat>, done: seq<bool>)
  {
    && Fits(plans, s) && i <= |plans| && Fits(plans, w)
    && Pass(plans, edges, k, s, 0) == Pass(plans, edges, k, w, i)
    && nodes == w.nodes && timeToGoal == w.timeToGoal && done == w.done
    && w == s.(nodes := w.nodes, progress := w.progress, timeToGoal := w.timeToGoal, done := w.done)
  }

  /** Robot `i`'s turn inside the pass, with the bookkeeping of the pass. */
  method StepRobot(robots: seq<Robot>, adg: Graph, k: nat, delayed: set<nat>, timeToGoal: seq<nat>, done: seq<bool>,
                   ghost plans: seq<Plan>, ghost s: Sim, ghost w: Sim, i: nat)
    returns (ok: bool, timeToGoal': seq<nat>, done': seq<bool>, ghost w': Sim)
    requires i < |robots| && DistinctRobots(robots) && Tracks(robots, plans, w.progress) && delayed == s.delayed
    requires PassAt(plans, adg.Edges(), k, s, i, w, adg.nodes, timeToGoal, done)
    modifies robots[i], adg`nodes
    ensures ok ==> PassAt(plans, adg.Edges(), k, s, i + 1, w', adg.nodes, timeToGoal', done')
                   && Tracks(robots, plans, w'.progress)
    ensures !ok ==> Pass(plans, adg.Edges(), k, s, 0) == None
  {
    ok, timeToGoal', done' := TakeTurn(robots[i], adg, k, delayed, timeToGoal, done, plans, w, i);
    w' := w.(nodes := adg.nodes, progress := w.progress[i := robots[i].State()],
             timeToGoal := timeToGoal', done := done');
    if ok {
      forall j | 0 <= j < |robots|
        ensures robots[j].Valid() && robots[j].id == j && robots[j].Itinerary() == plans[j]
        ensures robots[j].State() == w'.progress[j]
      {
        if j != i {
          assert robots[j] != robots[i];
        }
      }
    }
  }

  /** All robots' turns, in list order. */
  method AdvanceRobots(robots: seq<Robot>, adg: Graph, k: nat, delayed: set<nat>,
                       timeToGoal: seq<nat>, done: seq<bool>, ghost plans: seq<Plan>, ghost s: Sim)
    returns (ok: bool, timeToGoal': seq<nat>, done': seq<bool>, ghost w: Sim)
    requires DistinctRobots(robots) && Tracks(robots, plans, s.progress)
    requires PassAt(plans, adg.Edges(), k, s, 0, s, adg.nodes, timeToGoal, done) && delayed == s.delayed
    modifies robots, adg`nodes
    ensures ok ==> PassAt(plans, adg.Edges(), k, s, |robots|, w, adg.nodes, timeToGoal', done')
                   && Tracks(robots, plans, w.progress)
    ensures !ok ==> Pass(plans, adg.Edges(), k, s, 0) == None
  {
    w := s;
    timeToGoal', done' := timeToGoal, done;
    var i := 0;
    while i < |robots|
      invariant 0 <= i <= |robots|
      invariant PassAt(plans, adg.Edges(), k, s, i, w, adg.nodes, timeToGoal', done')
      invariant Tracks(robots, plans, w.progress)
    {
      var turned;
      turned, timeToGoal', done', w := StepRobot(robots, adg, k, delayed, timeToGoal', done', plans, s, w, i);
      if !turned {
        return false, [], [], w;
      }
      i := i + 1;
    }
    ok := true;
  }

  lemma HoldsValues(groups: seq<DependencyGroup>, vals: seq<Group>)
    requires Holds(groups, vals)
    ensures ValuesOf(groups) == vals
  {
  }

  lemma TracksItself(robots: seq<Robot>)
    requires RobotsOk(robots)
    ensures Tracks(robots, PlansOf(robots), ProgressOf(robots))
  {
  }

  /** The part of an epoch after the re-ordering step and the cycle check: the delay set and the turns. */
  method MoveOn(robots: seq<Robot>, adg: Graph, p: Params, k: nat, delayed: set<nat>,
                timeToGoal: seq<nat>, done: seq<bool>, ghost plans: seq<Plan>, ghost s: Sim)
    returns (ok: bool, delayed': set<nat>, timeToGoal': seq<nat>, done': seq<bool>)
    requires RobotsOk(robots) && plans == PlansOf(robots) && Fits(plans, s) && s.progress == ProgressOf(robots)
    requires adg.nodes == s.nodes && timeToGoal == s.timeToGoal && done == s.done && delayed == s.delayed
    modifies robots, adg`nodes
    ensures ok ==> RobotsOk(robots) && PlansOf(robots) == plans
    ensures p.delayAmount == 0 ==> !ok
    ensures p.delayAmount != 0 ==> var r := Pass(plans, adg.Edges(), k, s.(delayed := DelaySet(p, k, s.delayed)), 0);
      ok == r.Some? && (ok ==> r.value == s.(nodes := adg.nodes, progress := ProgressOf(robots),
                                             timeToGoal := timeToGoal', done := done', delayed := delayed'))
  {
    if p.delayAmount == 0 {
      // the remainder test raises before any robot moves
      return false, delayed, timeToGoal, done;
    }
    delayed' := delayed;
    if k % p.delayAmount == 0 {
      delayed' := p.draws(k);
    }
    TracksItself(robots);
    ghost var s1 := s.(delayed := delayed');
    ghost var w;
    ok, timeToGoal', done', w := AdvanceRobots(robots, adg, k, delayed', timeToGoal, done, plans, s1);
    if ok {
      assert Pass(plans, adg.Edges(), k, w, |robots|) == Some(w);
      ProgressOfEach(robots, w.progress);
      PlansOfEach(robots, plans);
    }
  }

  /** The checks before any robot moves, on the objects; the re-ordering step rewrites the ADG and the groups. */
  method ScreenEpoch(robots: seq<Robot>, groups: seq<DependencyGroup>, adg: Graph, p: Params, k: nat,
                     ghost plans: seq<Plan>, ghost s: Sim)
    returns (stop: Option<RunResult>)
    requires RobotsOk(robots) && Distinct(groups) && adg.type1 == p.type1
    requires plans == PlansOf(robots) && Fits(plans, s)
    requires s.nodes == adg.nodes && s.type2 == adg.type2 && s.groups == ValuesOf(groups) && s.progress == ProgressOf(robots)
    modifies groups, adg`type2
    ensures var m := Reordered(plans, p, s);
      && stop == Screen(p, k, s, m)
      && (stop.None? ==> adg.type2 == m.type2 && ValuesOf(groups) == m.groups)
  {
    RobotsFit(robots, s);
    ghost var m := Reordered(plans, p, s);
    var known := NodesKnown(robots, adg);
    if !known {
      assert !OnKnownNodes(s);
      return Some(Crashed);
    }
    var outcome := SolveMilp(robots, groups, adg, p.hControl, p.run, p.solve, ViewsOfSim(plans, s), s.groups);
    if outcome == NotRun || outcome == SolverFailed {
      // no solver status: the run ends and returns 0
      return Some(Aborted);
    }
    if !outcome.Solved? {
      return Some(Crashed);
    }
    var cyclic := FindCycle(adg.Edges());
    if cyclic {
      return Some(Deadlock(k));
    }
    HoldsValues(groups, m.groups);
    stop := None;
  }

  /** One epoch on the objects, once the checks have passed: the delay set and the turns. */
  method TurnsOfEpoch(robots: seq<Robot>, groups: seq<DependencyGroup>, adg: Graph, p: Params, k: nat,
                      delayed: set<nat>, timeToGoal: seq<nat>, done: seq<bool>, ghost plans: seq<Plan>, ghost s: Sim)
    returns (stop: Option<RunResult>, delayed': set<nat>, timeToGoal': seq<nat>, done': seq<bool>)
    requires RobotsOk(robots) && adg.type1 == p.type1
    requires plans == PlansOf(robots) && Fits(plans, s)
    requires var m := Reordered(plans, p, s);
      && Screen(p, k, s, m) == None
      && SimOf(robots, groups, adg, timeToGoal, done, delayed) == s.(type2 := m.type2, groups := m.groups)
    modifies robots, adg`nodes
    ensures stop.None? ==> RobotsOk(robots) && PlansOf(robots) == plans
    ensures var e := EpochStep(plans, p, k, s);
      && (stop.Some? <==> e.Stop?)
      && (stop.Some? ==> stop.value == e.result)
      && (stop.None? ==> e.s == SimOf(robots, groups, adg, timeToGoal', done', delayed'))
  {
    ghost var m := Reordered(plans, p, s);
    ghost var s1 := s.(type2 := m.type2, groups := m.groups);
    if p.delayAmount != 0 {
      ghost var r := Pass(plans, p.type1 + m.type2, k, s1.(delayed := DelaySet(p, k, s.delayed)), 0);
      assert EpochStep(plans, p, k, s) == if r.Some? then Continue(r.value) else Stop(Crashed);
    }
    var ok;
    ok, delayed', timeToGoal', done' := MoveOn(robots, adg, p, k, delayed, timeToGoal, done, plans, s1);
    if !ok {
      return Some(Crashed), delayed', timeToGoal', done';
    }
    assert ValuesOf(groups) == m.groups && adg.type2 == m.type2;
    stop := None;
  }

  /** One epoch on the objects. */
  method RunEpoch(robots: seq<Robot>, groups: seq<DependencyGroup>, adg: Graph, p: Params, k: nat,
                  delayed: set<nat>, timeToGoal: seq<nat>, done: seq<bool>, ghost plans: seq<Plan>, ghost s: Sim)
    returns (stop: Option<RunResult>, delayed': set<nat>, timeToGoal': seq<nat>, done': seq<bool>)
    requires RobotsOk(robots) && Distinct(groups) && adg.type1 == p.type1
    requires plans == PlansOf(robots) && Fits(plans, s)
    requires s == SimOf(robots, groups, adg, timeToGoal, done, delayed)
    modifies robots, groups, adg`nodes, adg`type2
    ensures stop.None? ==> RobotsOk(robots) && PlansOf(robots) == plans
    ensures var e := EpochStep(plans, p, k, s);
      && (stop.Some? <==> e.Stop?)
      && (stop.Some? ==> stop.value == e.result)
      && (stop.None? ==> e.s == SimOf(robots, groups, adg, timeToGoal', done', delayed'))
  {
    stop := ScreenEpoch(robots, groups, adg, p, k, plans, s);
    if stop.Some? {
      assert EpochStep(plans, p, k, s) == Stop(stop.value);
      return stop, delayed, timeToGoal, done;
    }
    stop, delayed', timeToGoal', done' := TurnsOfEpoch(robots, groups, adg, p, k, delayed, timeToGoal, done, plans, s);
  }

  /** The summed time to goal, as the report after the loop adds it up. */
  method TotalTime(timeToGoal: seq<nat>) returns (total: nat)
    ensures total == Sum(timeToGoal)
  {
    total := 0;
    var i := 0;
    while i < |timeToGoal|
      invariant 0 <= i <= |timeToGoal|
      invariant total == Sum(timeToGoal[..i])
    {
      assert timeToGoal[..i + 1][..i] == timeToGoal[..i];
      total := total + timeToGoal[i];
      i := i + 1;
    }
    assert timeToGoal[..i] == timeToGoal;
  }

  /**
   * The simulation loop: from no time charged, no robot done and no robot
   * delayed, epochs run until every robot is done or the timeout is reached.
   */
  method Simulate(robots: seq<Robot>, groups: seq<DependencyGroup>, adg: Graph, hControl: int, run: bool,
                  solve: Problem -> SolverReply, delayAmount: int, draws: nat -> set<nat>, timeout: int)
    returns (result: RunResult)
    requires RobotsOk(robots) && Distinct(groups)
    modifies robots, groups, adg`nodes, adg`type2
    ensures result == Run(old(PlansOf(robots)), Params(adg.type1, hControl, run, solve, delayAmount, draws, timeout), 0,
                          old(SimOf(robots, groups, adg, seq(|robots|, _ => 0), seq(|robots|, _ => false), {})))
  {
    var p := Params(adg.type1, hControl, run, solve, delayAmount, draws, timeout);
    ghost var plans := PlansOf(robots);
    var timeToGoal: seq<nat> := seq(|robots|, _ => 0);
    var done := seq(|robots|, _ => false);
    var delayed: set<nat> := {};
    ghost var s0 := SimOf(robots, groups, adg, timeToGoal, done, delayed);
    RobotsFit(robots, s0);
    var k: nat := 0;
    while !AllTrue(done) && k < timeout
      invariant RobotsOk(robots) && PlansOf(robots) == plans && Distinct(groups) && adg.type1 == p.type1
      invariant |timeToGoal| == |robots| && |done| == |robots|
      invariant Fits(plans, SimOf(robots, groups, adg, timeToGoal, done, delayed))
      invariant Run(plans, p, 0, s0) == Run(plans, p, k, SimOf(robots, groups, adg, timeToGoal, done, delayed))
      decreases timeout - k
    {
      ghost var s := SimOf(robots, groups, adg, timeToGoal, done, delayed);
      var stop;
      stop, delayed, timeToGoal, done := RunEpoch(robots, groups, adg, p, k, delayed, timeToGoal, done, plans, s);
      if stop.Some? {
        return stop.value;
      }
      k := k + 1;
    }
    var total := TotalTime(timeToGoal);
    result := Completed(total, k, timeToGoal, done);
  }
}
