/**
 * The ADG as a mutable directed graph: node data keyed by node identity and
 * two edge sets, one per edge type. A directed-cycle check stands in for the
 * graph library's cycle search.
 */
module Graphs {
  import opened AdgNodes

  class Graph {
    /** Node data, including each node's execution status. */
    var nodes: map<NodeId, AdgNode>
    /** Intra-robot precedence edges. */
    var type1: set<Edge>
    /** Inter-robot dependency edges. */
    var type2: set<Edge>

    constructor (nodes: map<NodeId, AdgNode>, type1: set<Edge>, type2: set<Edge>)
      ensures this.nodes == nodes && this.type1 == type1 && this.type2 == type2
    {
      this.nodes := nodes;
      this.type1 := type1;
      this.type2 := type2;
    }

    /** All edges, whatever their type. */
    function Edges(): set<Edge>
      reads this`type1, this`type2
    {
      type1 + type2
    }
  }

  /** The nodes with an edge into `n`: the predecessors a robot at `n` waits for. */
  function Predecessors(edges: set<Edge>, n: NodeId): (ps: set<NodeId>)
    ensures forall p :: p in ps <==> Edge(p, n) in edges
  {
    set e {:trigger e in edges} | e in edges && e.head == n :: e.tail
  }

  /** True when `n` has an outgoing edge (the library's non-empty neighbour list). */
  predicate HasSuccessor(edges: set<Edge>, n: NodeId)
  {
    exists e {:trigger e in edges} | e in edges :: e.tail == n
  }

  /** `p` is a walk that returns to where it started. */
  ghost predicate IsClosedWalk(edges: set<Edge>, p: seq<NodeId>)
  {
    && |p| >= 2
    && p[0] == p[|p| - 1]
    && forall i :: 0 <= i < |p| - 1 ==> Edge(p[i], p[i + 1]) in edges
  }

  ghost predicate HasCycle(edges: set<Edge>)
  {
    exists p :: IsClosedWalk(edges, p)
  }

  /** The edges whose both endpoints lie in `s`. */
  function Restrict(edges: set<Edge>, s: set<NodeId>): set<Edge>
  {
    set e | e in edges && e.tail in s && e.head in s
  }

  function Endpoints(edges: set<Edge>): set<NodeId>
  {
    (set e {:trigger e in edges} | e in edges :: e.tail) + (set e {:trigger e in edges} | e in edges :: e.head)
  }

  predicate HasPredecessorIn(edges: set<Edge>, s: set<NodeId>, n: NodeId)
  {
    exists e {:trigger e in edges} | e in edges :: e.head == n && e.tail in s
  }

  /** The nodes of `s` that no edge from inside `s` enters. */
  function Sources(edges: set<Edge>, s: set<NodeId>): (src: set<NodeId>)
    ensures src <= s
  {
    set n | n in s && !HasPredecessorIn(edges, s, n)
  }

  /**
   * Repeatedly removes the sources of `s`; a cycle exists exactly when this
   * gets stuck on a non-empty set.
   */
  function Peel(edges: set<Edge>, s: set<NodeId>): (cyclic: bool)
    ensures cyclic <==> HasCycle(Restrict(edges, s))
    decreases |s|
  {
    var src := Sources(edges, s);
    if src == {} then
      if s == {} then
        NoCycleWithoutEdges(Restrict(edges, s));
        false
      else
        var n :| n in s;
        StuckSetHasCycle(edges, s, [n]); true
    else
      PeelingKeepsCycles(edges, s, src);
      assert s - src < s;
      Peel(edges, s - src)
  }

  /** The cycle check run on the ADG after every solve. */
  function FindCycle(edges: set<Edge>): (cyclic: bool)
    ensures cyclic <==> HasCycle(edges)
  {
    assert Restrict(edges, Endpoints(edges)) == edges;
    Peel(edges, Endpoints(edges))
  }

  lemma NoCycleWithoutEdges(edges: set<Edge>)
    requires edges == {}
    ensures !HasCycle(edges)
  {
    forall p | |p| >= 2
      ensures !IsClosedWalk(edges, p)
    {
      assert Edge(p[0], p[1]) !in edges;
    }
  }

  /** A closed walk never passes through a source, so removing the sources keeps every cycle. */
  lemma PeelingKeepsCycles(edges: set<Edge>, s: set<NodeId>, src: set<NodeId>)
    requires src == Sources(edges, s)
    ensures HasCycle(Restrict(edges, s)) <==> HasCycle(Restrict(edges, s - src))
  {
    if p :| IsClosedWalk(Restrict(edges, s), p) {
      forall i | 0 <= i < |p| - 1
        ensures Edge(p[i], p[i + 1]) in Restrict(edges, s - src)
      {
        var e := Edge(p[i], p[i + 1]);
        assert e in edges && p[i + 1] in s;
        assert HasPredecessorIn(edges, s, p[i + 1]);
        var j := if i == 0 then |p| - 2 else i - 1;
        var f := Edge(p[j], p[j + 1]);
        assert f in Restrict(edges, s);
        assert p[j + 1] == p[i];
        assert HasPredecessorIn(edges, s, p[i]);
      }
      assert IsClosedWalk(Restrict(edges, s - src), p);
    }
    if p :| IsClosedWalk(Restrict(edges, s - src), p) {
      assert IsClosedWalk(Restrict(edges, s), p);
    }
  }

  /**
   * Pigeonhole: when every node of `s` has a predecessor in `s`, walking
   * backwards from any node must revisit a node, which closes a cycle.
   * `w` is the walk built so far, without repetitions.
   */
  lemma {:induction false} StuckSetHasCycle(edges: set<Edge>, s: set<NodeId>, w: seq<NodeId>)
    requires w != []
    requires forall i :: 0 <= i < |w| ==> w[i] in s
    requires forall i :: 0 <= i < |w| - 1 ==> Edge(w[i], w[i + 1]) in edges
    requires forall i, j :: 0 <= i < j < |w| ==> w[i] != w[j]
    requires Sources(edges, s) == {}
    ensures HasCycle(Restrict(edges, s))
    decreases |s| - |w|
  {
    DistinctWithin(w, s);
    assert w[0] in s;
    assert w[0] !in Sources(edges, s);
    var e :| e in edges && e.head == w[0] && e.tail in s;
    var p := e.tail;
    if k :| 0 <= k < |w| && w[k] == p {
      var c := [p] + w[..k + 1];
      forall i | 0 <= i < |c| - 1
        ensures Edge(c[i], c[i + 1]) in Restrict(edges, s)
      {
        if i == 0 {
          assert c[0] == p && c[1] == w[0];
        } else {
          assert c[i] == w[i - 1] && c[i + 1] == w[i];
        }
      }
      assert IsClosedWalk(Restrict(edges, s), c);
    } else {
      var w' := [p] + w;
      assert forall i :: 0 <= i < |w| ==> w'[i + 1] == w[i];
      DistinctWithin(w', s);
      StuckSetHasCycle(edges, s, w');
    }
  }

  /** A repetition-free sequence drawn from `s` is no longer than `s` is large. */
  lemma {:induction false} DistinctWithin(w: seq<NodeId>, s: set<NodeId>)
    requires forall i :: 0 <= i < |w| ==> w[i] in s
    requires forall i, j :: 0 <= i < j < |w| ==> w[i] != w[j]
    ensures |w| <= |s|
    decreases |w|
  {
    if w != [] {
      assert forall i :: 0 <= i < |w| - 1 ==> w[1..][i] == w[i + 1];
      assert w[0] !in w[1..];
      DistinctWithin(w[1..], s - {w[0]});
    }
  }
}
