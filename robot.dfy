/** The execution state machine of one robot walking along its chain of action nodes. */
module Robots {
  import opened AdgNodes

  datatype RobotStatus = NotDone | Done

  /** The part of a robot's state that `advance` reads and writes. */
  datatype Progress = Progress(
    idx: int,
    node: NodeId,
    position: Loc,
    prevPosition: Loc,
    goalShown: bool,
    status: RobotStatus,
    advancedThisStep: bool)

  /** A robot's fixed plan: node ids, their start cells, and the goal cell. */
  datatype Plan = Plan(nodes: seq<NodeId>, positions: seq<Loc>, goal: Loc)

  ghost predicate PlanOk(p: Plan)
  {
    |p.nodes| > 0 && |p.positions| == |p.nodes|
  }

  /** What the state machine keeps true of a progress value. */
  ghost predicate Consistent(p: Plan, s: Progress)
  {
    && PlanOk(p)
    && 0 <= s.idx < |p.nodes|
    && s.node == p.nodes[s.idx]
    && (s.goalShown ==> s.idx == |p.nodes| - 1)
    && (s.status == Done ==> s.goalShown)
  }

  /** State right after construction: first node, first position, not done. */
  function Start(p: Plan): (s: Progress)
    requires PlanOk(p)
    ensures Consistent(p, s)
  {
    Progress(0, p.nodes[0], p.positions[0], p.positions[0], false, NotDone, false)
  }

  /** One call of `advance`. */
  function Step(p: Plan, s: Progress): (r: Progress)
    requires Consistent(p, s)
    ensures Consistent(p, r)
  {
    if s.idx < |p.nodes| - 1 then
      // move on; the previous position is that of the node just left
      Progress(s.idx + 1, p.nodes[s.idx + 1], p.positions[s.idx + 1], p.positions[s.idx],
               s.goalShown, s.status, true)
    else if !s.goalShown then
      // at the last node: snap to the goal once
      s.(advancedThisStep := true, prevPosition := s.position, position := p.goal, goalShown := true)
    else
      s.(advancedThisStep := false, status := Done, position := p.goal, prevPosition := p.goal)
  }

  /** `n` successive calls of `advance`. */
  function Steps(p: Plan, s: Progress, n: nat): (r: Progress)
    requires Consistent(p, s)
    ensures Consistent(p, r)
  {
    if n == 0 then s else Step(p, Steps(p, s, n - 1))
  }

  /**
   * Walking from the start, the robot is on node `n` after `n` advances while
   * `n` is below the plan length, has shown its goal arrival after exactly
   * `plan length` advances, and is done exactly from advance number
   * `plan length + 1` on.
   */
  lemma {:induction false} StepsFromStart(p: Plan, n: nat)
    requires PlanOk(p)
    ensures var s := Steps(p, Start(p), n);
      var len := |p.nodes|;
      && (n < len ==> s.idx == n && s.position == p.positions[n] && !s.goalShown)
      && (n >= len ==> s.idx == len - 1 && s.goalShown && s.position == p.goal)
      && (s.status == Done <==> n >= len + 1)
  {
    if n > 0 {
      StepsFromStart(p, n - 1);
    }
  }

  /** Once done, `advance` changes nothing more. */
  lemma DoneIsFinal(p: Plan, s: Progress)
    requires Consistent(p, s) && s.status == Done
    ensures Step(p, s).status == Done
    ensures Step(p, Step(p, s)) == Step(p, s)
  {
  }

  class Robot {
    const id: nat
    const planNodes: seq<NodeId>
    const planPositions: seq<Loc>
    const goalPosition: Loc
    const planLength: nat
    /** Estimated travel time to each next node; unit cost for every step. */
    const timeToNextNode: seq<real>
    var advanceThisStep: bool
    var currentIdx: int
    var delayVal: int
    var currentNode: NodeId
    var currentPosition: Loc
    var prevPosition: Loc
    var goalReachedAnimate: bool
    var status: RobotStatus

    function Itinerary(): Plan
      reads this
    {
      Plan(planNodes, planPositions, goalPosition)
    }

    function State(): Progress
      reads this
    {
      Progress(currentIdx, currentNode, currentPosition, prevPosition, goalReachedAnimate, status, advanceThisStep)
    }

    ghost predicate Valid()
      reads this
    {
      && planLength == |planNodes|
      && |timeToNextNode| == planLength
      && Consistent(Itinerary(), State())
    }

    /** The plan must have at least one node: the source reads `plan_nodes[0]` here. */
    constructor (id: nat, nodes: seq<NodeId>, positions: seq<Loc>, goal: Loc)
      requires |nodes| > 0 && |positions| == |nodes|
      ensures Valid()
      ensures this.id == id && Itinerary() == Plan(nodes, positions, goal)
      ensures State() == Start(Itinerary())
      ensures delayVal == 0 && |timeToNextNode| == |nodes|
    {
      this.id := id;
      planNodes := nodes;
      planPositions := positions;
      goalPosition := goal;
      planLength := |nodes|;
      advanceThisStep := false;
      timeToNextNode := seq(|nodes|, _ => 1.0);
      currentIdx := 0;
      delayVal := 0;
      currentNode := nodes[0];
      currentPosition := positions[0];
      prevPosition := positions[0];
      goalReachedAnimate := false;
      status := NotDone;
    }

    method IncreaseDelay(delay: int)
      modifies this`delayVal
      ensures delayVal == old(delayVal) + delay
    {
      delayVal := delayVal + delay;
    }

    /** Counts a pending delay down by one step; never goes below zero from a non-negative value. */
    method DelayIncTimestep()
      modifies this`delayVal
      ensures delayVal == if old(delayVal) > 0 then old(delayVal) - 1 else old(delayVal)
      ensures old(delayVal) >= 0 ==> delayVal >= 0
    {
      if delayVal > 0 {
        delayVal := delayVal - 1;
      }
    }

    method Advance()
      requires Valid()
      modifies this
      ensures Valid()
      ensures State() == Step(Itinerary(), old(State()))
      ensures delayVal == old(delayVal)
    {
      if currentIdx < planLength - 1 {
        advanceThisStep := true;
        currentIdx := currentIdx + 1;
        currentNode := planNodes[currentIdx];
        currentPosition := planPositions[currentIdx];
        prevPosition := planPositions[if currentIdx - 1 > 0 then currentIdx - 1 else 0];
      } else {
        if !goalReachedAnimate {
          advanceThisStep := true;
          prevPosition := currentPosition;
          currentPosition := goalPosition;
          goalReachedAnimate := true;
        } else {
          advanceThisStep := false;
          status := Done;
          currentPosition := goalPosition;
          prevPosition := currentPosition;
        }
      }
    }

    /** The nodes still ahead, starting with the current one and ending with the goal node. */
    function RemainingPlan(): (r: seq<NodeId>)
      reads this
      requires Valid()
      ensures |r| == planLength - currentIdx >= 1
      ensures r[0] == currentNode && r[|r| - 1] == GoalNode()
      ensures forall k :: 0 <= k < |r| ==> r[k] == planNodes[currentIdx + k]
    {
      planNodes[currentIdx..]
    }

    function RemainingTimesToNextNode(): (r: seq<real>)
      reads this
      requires Valid()
      ensures |r| == |RemainingPlan()|
    {
      timeToNextNode[currentIdx..]
    }

    function GoalNode(): NodeId
      reads this
      requires Valid()
    {
      planNodes[|planNodes| - 1]
    }

    predicate IsDone()
      reads this
    {
      status == Done
    }
  }
}
