/** Nodes, node identities and edges of the action dependency graph (ADG). */
module AdgNodes {

  /** One time-stamped waypoint of a robot's plan, as the path planner returns it. */
  datatype Waypoint = Waypoint(x: int, y: int, t: int)

  /** A grid cell `(x, y)`. */
  datatype Loc = Loc(x: int, y: int)

  /** Execution status of an action node. The three constructors are distinct by construction. */
  datatype Status = Staged | Enqueued | Finished

  /**
   * Identity of an action node: robot number and position in that robot's chain.
   * The index is an `int` because a reverse edge can name index -1.
   */
  datatype NodeId = NodeId(robot: nat, idx: int)

  /** A directed edge `tail -> head`: the action at `head` may start only after `tail` finished. */
  datatype Edge = Edge(tail: NodeId, head: NodeId)

  datatype Option<T> = None | Some(value: T)

  /** One action: start at `sLoc` at time `time` and move to `gLoc`. */
  datatype AdgNode = AdgNode(id: NodeId, time: int, sLoc: Loc, gLoc: Loc, status: Status)

  function Position(w: Waypoint): Loc
  {
    Loc(w.x, w.y)
  }

  /** The node built from waypoint `item` and the waypoint `next` that follows it. */
  function NewNode(id: NodeId, item: Waypoint, next: Waypoint): (n: AdgNode)
    ensures n.id == id && n.time == item.t && n.status == Staged
    ensures n.sLoc == Position(item) && n.gLoc == Position(next)
    ensures n.sLoc == n.gLoc <==> item.x == next.x && item.y == next.y
  {
    AdgNode(id, item.t, Loc(item.x, item.y), Loc(next.x, next.y), Staged)
  }
}
