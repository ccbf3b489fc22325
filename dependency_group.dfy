/**
 * A dependency group: a chain of inter-robot (type-2) edges between one pair
 * of robots that the optimiser keeps or reverses as a unit.
 */
module DependencyGroups {
  import opened AdgNodes

  /** `Single`: one edge; `Same`: both robots move the same way; `Opposite`: they move towards each other. */
  datatype GroupType = Single | Same | Opposite

  /** The value of a group's fields. */
  datatype Group = Group(
    edges: seq<Edge>,
    reverseEdges: seq<Edge>,
    kind: GroupType,
    robotBlocking: nat,
    robotBlocked: nat,
    originalDirection: bool,
    firstEdgeTail: NodeId,
    firstEdgeHead: NodeId)

  function Shift(n: NodeId, d: int): NodeId
  {
    NodeId(n.robot, n.idx + d)
  }

  function Last(es: seq<Edge>): Edge
    requires es != []
  {
    es[|es| - 1]
  }

  /** The edge that extends a same-direction chain ending in `e`: both endpoints one node further. */
  function SameNext(e: Edge): Edge
  {
    Edge(Shift(e.tail, 1), Shift(e.head, 1))
  }

  /** The edge that extends an opposite-direction chain ending in `e`: tail one further, head one back. */
  function OppositeNext(e: Edge): Edge
  {
    Edge(Shift(e.tail, 1), Shift(e.head, -1))
  }

  /**
   * The reverse of dependency `(a,i) -> (b,j)`: robot `a` now waits for `b`,
   * from the node after `b`'s to the node before `a`'s, `(b,j+1) -> (a,i-1)`.
   */
  function ReverseEdge(e: Edge): Edge
  {
    Edge(Shift(e.head, 1), Shift(e.tail, -1))
  }

  function ReverseAll(es: seq<Edge>): (rs: seq<Edge>)
    ensures |rs| == |es|
    ensures forall k :: 0 <= k < |es| ==> rs[k] == ReverseEdge(es[k])
  {
    if es == [] then [] else ReverseAll(es[..|es| - 1]) + [ReverseEdge(Last(es))]
  }

  /**
   * The literal per-edge formula undoes itself: reversing a reverse edge gives
   * back the original edge, and so for a whole edge list.
   */
  lemma ReverseAllInvolution(es: seq<Edge>)
    ensures ReverseAll(ReverseAll(es)) == es
    ensures forall e :: ReverseEdge(ReverseEdge(e)) == e
  {
  }

  function NewGroup(e: Edge): Group
  {
    Group([e], [], Single, e.tail.robot, e.head.robot, true, e.tail, e.head)
  }

  /** Offers `e` as a same-direction continuation; the flag says whether it was accepted. */
  function ExtendSame(g: Group, e: Edge): (bool, Group)
    requires g.edges != []
  {
    if g.kind == Single || g.kind == Same then
      if e == SameNext(Last(g.edges)) then
        (true, g.(kind := Same, edges := g.edges + [e]))
      else
        (false, g)
    else
      (false, g)
  }

  /** Offers `e` as an opposite-direction continuation; on acceptance the closest head moves to `e`'s head. */
  function ExtendOpposite(g: Group, e: Edge): (bool, Group)
    requires g.edges != []
  {
    if g.kind == Single || g.kind == Opposite then
      if e == OppositeNext(Last(g.edges)) then
        (true, g.(kind := Opposite, edges := g.edges + [e], firstEdgeHead := e.head))
      else
        (false, g)
    else
      (false, g)
  }

  /** The group after `determine_reverse`: one reverse edge appended per edge, in order. */
  function WithReverse(g: Group): Group
  {
    g.(reverseEdges := g.reverseEdges + ReverseAll(g.edges))
  }

  function Next(kind: GroupType, e: Edge): Edge
  {
    match kind
    case Same => SameNext(e)
    case Opposite => OppositeNext(e)
    case Single => e
  }

  /** How far the head index moves from one edge of the chain to the next. */
  function HeadStep(kind: GroupType): int
  {
    match kind
    case Same => 1
    case Opposite => -1
    case Single => 0
  }

  /** The shape every group keeps: a chain of edges of its kind, with the bookkeeping fields to match. */
  ghost predicate ChainShaped(g: Group)
  {
    && g.edges != []
    && (g.kind == Single ==> |g.edges| == 1)
    && (forall k :: 0 <= k < |g.edges| - 1 ==> g.edges[k + 1] == Next(g.kind, g.edges[k]))
    && g.robotBlocking == g.edges[0].tail.robot
    && g.robotBlocked == g.edges[0].head.robot
    && g.firstEdgeTail == g.edges[0].tail
    && g.firstEdgeHead == (if g.kind == Opposite then Last(g.edges).head else g.edges[0].head)
  }

  /**
   * Edge `k` of a chain: all tails on the blocking robot and all heads on the
   * blocked robot; tail indices go up by one per edge, head indices go up by
   * one in a same group and down by one in an opposite group.
   */
  lemma {:induction false} ChainIndices(g: Group, k: nat)
    requires ChainShaped(g) && k < |g.edges|
    ensures g.edges[k].tail == NodeId(g.robotBlocking, g.edges[0].tail.idx + k)
    ensures g.edges[k].head == NodeId(g.robotBlocked, g.edges[0].head.idx + HeadStep(g.kind) * k)
  {
    if k > 0 {
      ChainIndices(g, k - 1);
    }
  }

  /** `first_edge_head` is the head closest to the blocked robot's start: no head index is smaller. */
  lemma FirstHeadIsClosest(g: Group)
    requires ChainShaped(g)
    ensures exists k :: 0 <= k < |g.edges| && g.edges[k].head == g.firstEdgeHead
    ensures forall e {:trigger e in g.edges} :: e in g.edges ==> e.head.robot == g.firstEdgeHead.robot && g.firstEdgeHead.idx <= e.head.idx
  {
    var n := |g.edges|;
    assert g.edges[n - 1].head == Last(g.edges).head;
    ChainIndices(g, n - 1);
    forall e {:trigger e in g.edges} | e in g.edges
      ensures e.head.robot == g.firstEdgeHead.robot && g.firstEdgeHead.idx <= e.head.idx
    {
      var k :| 0 <= k < n && g.edges[k] == e;
      ChainIndices(g, k);
    }
  }

  /** A new group is a one-edge chain. */
  lemma NewGroupShaped(e: Edge)
    ensures ChainShaped(NewGroup(e))
  {
  }

  /**
   * A same-extension is accepted exactly when the group is single or same and
   * the edge moves both endpoints of the last edge one node on; accepting
   * keeps the chain shape, and rejecting changes nothing.
   */
  lemma ExtendSameKeepsShape(g: Group, e: Edge)
    requires ChainShaped(g)
    ensures var (accepted, g') := ExtendSame(g, e);
      && (accepted <==> g.kind != Opposite
                        && e.tail == Shift(Last(g.edges).tail, 1) && e.head == Shift(Last(g.edges).head, 1))
      && ChainShaped(g')
      && (accepted ==> g'.kind == Same && g'.edges == g.edges + [e])
      && (!accepted ==> g' == g)
      && g'.reverseEdges == g.reverseEdges && g'.originalDirection == g.originalDirection
  {
    var (accepted, g') := ExtendSame(g, e);
    if accepted {
      forall k | 0 <= k < |g'.edges| - 1
        ensures g'.edges[k + 1] == Next(g'.kind, g'.edges[k])
      {
        if k < |g.edges| - 1 {
          assert g.edges[k + 1] == Next(g.kind, g.edges[k]);
          assert g.kind == Same;
        }
      }
    }
  }

  /**
   * An opposite-extension is accepted exactly when the group is single or
   * opposite and the edge moves the tail one node on and the head one node
   * back; accepting keeps the chain shape, and rejecting changes nothing.
   */
  lemma ExtendOppositeKeepsShape(g: Group, e: Edge)
    requires ChainShaped(g)
    ensures var (accepted, g') := ExtendOpposite(g, e);
      && (accepted <==> g.kind != Same
                        && e.tail == Shift(Last(g.edges).tail, 1) && e.head == Shift(Last(g.edges).head, -1))
      && ChainShaped(g')
      && (accepted ==> g'.kind == Opposite && g'.edges == g.edges + [e] && g'.firstEdgeHead == e.head)
      && (!accepted ==> g' == g)
      && g'.reverseEdges == g.reverseEdges && g'.originalDirection == g.originalDirection
  {
    var (accepted, g') := ExtendOpposite(g, e);
    if accepted {
      forall k | 0 <= k < |g'.edges| - 1
        ensures g'.edges[k + 1] == Next(g'.kind, g'.edges[k])
      {
        if k < |g.edges| - 1 {
          assert g.edges[k + 1] == Next(g.kind, g.edges[k]);
          assert g.kind == Opposite;
        }
      }
    }
  }

  class DependencyGroup {
    var edges: seq<Edge>
    var reverseEdges: seq<Edge>
    var kind: GroupType
    var robotBlocking: nat
    var robotBlocked: nat
    /** False while the reverse edges are the ones installed in the graph. */
    var originalDirection: bool
    var firstEdgeTail: NodeId
    var firstEdgeHead: NodeId

    function Value(): Group
      reads this
    {
      Group(edges, reverseEdges, kind, robotBlocking, robotBlocked, originalDirection, firstEdgeTail, firstEdgeHead)
    }

    ghost predicate Valid()
      reads this
    {
      ChainShaped(Value())
    }

    constructor (e: Edge)
      ensures Valid()
      ensures Value() == NewGroup(e)
    {
      edges := [e];
      reverseEdges := [];
      kind := Single;
      robotBlocking := e.tail.robot;
      robotBlocked := e.head.robot;
      originalDirection := true;
      firstEdgeTail := e.tail;
      firstEdgeHead := e.head;
    }

    method NextEdgeSame(e: Edge) returns (accepted: bool)
      requires Valid()
      modifies this
      ensures Valid()
      ensures (accepted, Value()) == ExtendSame(old(Value()), e)
    {
      ExtendSameKeepsShape(Value(), e);
      if kind == Single || kind == Same {
        var current := edges[|edges| - 1];
        var uNext := NodeId(current.tail.robot, current.tail.idx + 1);
        var vNext := NodeId(current.head.robot, current.head.idx + 1);
        if e.tail == uNext && e.head == vNext {
          kind := Same;
          edges := edges + [e];
          accepted := true;
        } else {
          accepted := false;
        }
      } else {
        accepted := false;
      }
    }

    method NextEdgeOpposite(e: Edge) returns (accepted: bool)
      requires Valid()
      modifies this
      ensures Valid()
      ensures (accepted, Value()) == ExtendOpposite(old(Value()), e)
    {
      ExtendOppositeKeepsShape(Value(), e);
      if kind == Single || kind == Opposite {
        var current := edges[|edges| - 1];
        var uNext := NodeId(current.tail.robot, current.tail.idx + 1);
        var vNext := NodeId(current.head.robot, current.head.idx - 1);
        if e.tail == uNext && e.head == vNext {
          kind := Opposite;
          edges := edges + [e];
          firstEdgeHead := e.head;
          accepted := true;
        } else {
          // the source falls off the end here and returns None, which is falsy
          accepted := false;
        }
      } else {
        accepted := false;
      }
    }

    method DetermineReverse()
      requires Valid()
      modifies this`reverseEdges
      ensures Valid()
      ensures Value() == WithReverse(old(Value()))
    {
      if kind == Single {
        // a single group holds exactly one edge
        var e := edges[0];
        var vNew := NodeId(e.tail.robot, e.tail.idx - 1);
        var uNew := NodeId(e.head.robot, e.head.idx + 1);
        reverseEdges := reverseEdges + [Edge(uNew, vNew)];
        assert edges == [e];
      } else {
        // the same and opposite branches run the same loop
        var k := 0;
        while k < |edges|
          invariant 0 <= k <= |edges|
          invariant reverseEdges == old(reverseEdges) + ReverseAll(edges[..k])
        {
          var e := edges[k];
          var vNew := NodeId(e.tail.robot, e.tail.idx - 1);
          var uNew := NodeId(e.head.robot, e.head.idx + 1);
          reverseEdges := reverseEdges + [Edge(uNew, vNew)];
          assert edges[..k + 1][..k] == edges[..k];
          k := k + 1;
        }
        assert edges[..k] == edges;
      }
    }
  }
}
