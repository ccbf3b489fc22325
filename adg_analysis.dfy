/**
 * The greedy pass that sorts the type-2 edges into dependency groups, and
 * the reverse edges each group then gets.
 */
module AdgAnalysis {
  import opened AdgNodes
  import opened DependencyGroups

  /** A group as classification leaves it: chain-shaped, no reverse edges yet, original direction. */
  ghost predicate Unreversed(g: Group)
  {
    ChainShaped(g) && g.reverseEdges == [] && g.originalDirection
  }

  ghost predicate AllUnreversed(gs: seq<Group>)
  {
    forall k :: 0 <= k < |gs| ==> Unreversed(gs[k])
  }

  /** Group `g` takes edge `e`, as a same-extension or as an opposite-extension. */
  predicate Accepts(g: Group, e: Edge)
    requires g.edges != []
  {
    ExtendSame(g, e).0 || ExtendOpposite(g, e).0
  }

  /** The group after taking `e`; the same-extension is tried first. */
  function Extended(g: Group, e: Edge): Group
    requires g.edges != []
  {
    if ExtendSame(g, e).0 then ExtendSame(g, e).1 else ExtendOpposite(g, e).1
  }

  /** An accepting group stays unreversed after taking the edge, and ends with it. */
  lemma ExtendedUnreversed(g: Group, e: Edge)
    requires Unreversed(g) && Accepts(g, e)
    ensures Unreversed(Extended(g, e))
    ensures Extended(g, e).edges == g.edges + [e]
  {
    ExtendSameKeepsShape(g, e);
    ExtendOppositeKeepsShape(g, e);
  }

  /** The first group, from index `from` on, that takes `e`; `|gs|` when none does. */
  function FirstAccepting(gs: seq<Group>, e: Edge, from: nat): (k: nat)
    requires from <= |gs|
    requires forall j :: 0 <= j < |gs| ==> gs[j].edges != []
    ensures from <= k <= |gs|
    ensures forall j :: from <= j < k ==> !Accepts(gs[j], e)
    ensures k < |gs| ==> Accepts(gs[k], e)
    decreases |gs| - from
  {
    if from == |gs| then |gs|
    else if Accepts(gs[from], e) then from
    else FirstAccepting(gs, e, from + 1)
  }

  /**
   * Offers `e` to the groups in creation order: the first that takes it is
   * extended; when none takes it, a new group is appended.
   */
  function Offer(gs: seq<Group>, e: Edge): (r: seq<Group>)
    requires AllUnreversed(gs)
    ensures AllUnreversed(r)
  {
    var k := FirstAccepting(gs, e, 0);
    if k < |gs| then
      ExtendedUnreversed(gs[k], e);
      gs[k := Extended(gs[k], e)]
    else
      NewGroupShaped(e);
      gs + [NewGroup(e)]
  }

  /**
   * The first group in creation order that takes `e` is extended with it and
   * every other group is untouched; when no group takes it, a new group is
   * appended.
   */
  lemma OfferFirstWins(gs: seq<Group>, e: Edge)
    requires AllUnreversed(gs)
    ensures (forall k :: 0 <= k < |gs| ==> !Accepts(gs[k], e)) ==> Offer(gs, e) == gs + [NewGroup(e)]
    ensures (exists k :: 0 <= k < |gs| && Accepts(gs[k], e)) ==>
      exists k :: && 0 <= k < |gs|
                  && Accepts(gs[k], e)
                  && (forall j :: 0 <= j < k ==> !Accepts(gs[j], e))
                  && Offer(gs, e) == gs[k := Extended(gs[k], e)]
                  && Offer(gs, e)[k].edges == gs[k].edges + [e]
  {
    var k := FirstAccepting(gs, e, 0);
    if k < |gs| {
      ExtendedUnreversed(gs[k], e);
    }
  }

  /** Offering `e` adds exactly `e` to the groups' edges. */
  lemma OfferAddsEdge(gs: seq<Group>, e: Edge)
    requires AllUnreversed(gs)
    ensures multiset(Flatten(Offer(gs, e))) == multiset(Flatten(gs)) + multiset{e}
  {
    var k := FirstAccepting(gs, e, 0);
    if k < |gs| {
      ExtendedUnreversed(gs[k], e);
      FlattenExtend(gs, k, Extended(gs[k], e), e);
    } else {
      assert (gs + [NewGroup(e)])[..|gs|] == gs;
    }
  }

  /** The groups after offering the edges one by one, in order. */
  function Classify(es: seq<Edge>): (gs: seq<Group>)
    ensures AllUnreversed(gs)
    ensures |gs| <= |es|
  {
    if es == [] then [] else Offer(Classify(es[..|es| - 1]), es[|es| - 1])
  }

  /** All edges of all groups, group after group. */
  function Flatten(gs: seq<Group>): seq<Edge>
  {
    if gs == [] then [] else Flatten(gs[..|gs| - 1]) + gs[|gs| - 1].edges
  }

  /** Appending an edge to one group adds exactly that edge to the flattened edges. */
  lemma {:induction false} FlattenExtend(gs: seq<Group>, k: nat, g: Group, e: Edge)
    requires k < |gs| && g.edges == gs[k].edges + [e]
    ensures multiset(Flatten(gs[k := g])) == multiset(Flatten(gs)) + multiset{e}
  {
    var n := |gs| - 1;
    assert gs[k := g][..n] == if k < n then gs[..n][k := g] else gs[..n];
    if k < n {
      FlattenExtend(gs[..n], k, g, e);
    }
  }

  /**
   * Every type-2 edge ends up in a group, and nothing else does: counted with
   * multiplicity, the groups' edges are exactly the input edges.
   */
  lemma {:induction false} ClassifyPartition(es: seq<Edge>)
    ensures multiset(Flatten(Classify(es))) == multiset(es)
  {
    if es != [] {
      var front, e := es[..|es| - 1], es[|es| - 1];
      assert Classify(es) == Offer(Classify(front), e);
      ClassifyPartition(front);
      OfferAddsEdge(Classify(front), e);
      assert es == front + [e];
      assert multiset(es) == multiset(front) + multiset{e};
    }
  }

  /** Every group links one blocking robot to one blocked robot, along a chain of its kind. */
  lemma GroupsAreChains(es: seq<Edge>, k: nat)
    requires k < |Classify(es)|
    ensures var g := Classify(es)[k];
      && (forall e {:trigger e in g.edges} :: e in g.edges ==> e.tail.robot == g.robotBlocking && e.head.robot == g.robotBlocked)
      && (forall j :: 0 <= j < |g.edges| ==> g.edges[j].tail.idx == g.edges[0].tail.idx + j)
  {
    var g := Classify(es)[k];
    forall j | 0 <= j < |g.edges|
      ensures g.edges[j].tail.robot == g.robotBlocking && g.edges[j].head.robot == g.robotBlocked
      ensures g.edges[j].tail.idx == g.edges[0].tail.idx + j
    {
      ChainIndices(g, j);
    }
  }

  ghost predicate Distinct(groups: seq<DependencyGroup>)
  {
    forall j, k :: 0 <= j < k < |groups| ==> groups[j] != groups[k]
  }

  /**
   * Groups the type-2 edges, given in the graph's edge order, and computes
   * every group's reverse edges.
   */
  method AnalyzeAdg(edgesType2: seq<Edge>) returns (groups: seq<DependencyGroup>)
    ensures |groups| == |Classify(edgesType2)|
    ensures forall k :: 0 <= k < |groups| ==> fresh(groups[k])
    ensures Distinct(groups)
    ensures forall k :: 0 <= k < |groups| ==>
      groups[k].Valid() && groups[k].Value() == WithReverse(Classify(edgesType2)[k])
  {
    groups := [];
    var t := 0;
    while t < |edgesType2|
      invariant 0 <= t <= |edgesType2|
      invariant |groups| == |Classify(edgesType2[..t])|
      invariant forall k :: 0 <= k < |groups| ==> fresh(groups[k])
      invariant Distinct(groups)
      invariant forall k :: 0 <= k < |groups| ==>
        groups[k].Valid() && groups[k].Value() == Classify(edgesType2[..t])[k]
    {
      ghost var before := Classify(edgesType2[..t]);
      assert edgesType2[..t + 1][..t] == edgesType2[..t];
      assert Classify(edgesType2[..t + 1]) == Offer(before, edgesType2[t]);
      groups := PlaceEdge(groups, edgesType2[t], before);
      t := t + 1;
    }
    assert edgesType2[..t] == edgesType2;
    ReverseGroups(groups, Classify(edgesType2));
  }

  /** One edge of the grouping loop: offered to each group in turn until one takes it, else a new group. */
  method PlaceEdge(groups: seq<DependencyGroup>, edge: Edge, ghost before: seq<Group>)
    returns (placed: seq<DependencyGroup>)
    requires |groups| == |before| && AllUnreversed(before) && Distinct(groups)
    requires forall j :: 0 <= j < |groups| ==> groups[j].Valid() && groups[j].Value() == before[j]
    modifies groups
    ensures |placed| == |Offer(before, edge)| && Distinct(placed)
    ensures forall j :: 0 <= j < |groups| ==> placed[j] == groups[j]
    ensures forall j :: |groups| <= j < |placed| ==> fresh(placed[j])
    ensures forall j :: 0 <= j < |placed| ==> placed[j].Valid() && placed[j].Value() == Offer(before, edge)[j]
  {
    var k := 0;
    while k < |groups|
      invariant 0 <= k <= |groups|
      invariant forall j :: 0 <= j < k ==> !Accepts(before[j], edge)
      invariant forall j :: 0 <= j < |groups| ==> groups[j].Valid() && groups[j].Value() == before[j]
    {
      var added := OfferTo(groups[k], edge, before[k]);
      if added {
        assert FirstAccepting(before, edge, 0) == k;
        assert forall j :: 0 <= j < |groups| && j != k ==> groups[j] != groups[k];
        return groups;
      }
      k := k + 1;
    }
    assert FirstAccepting(before, edge, 0) == |before|;
    var g := new DependencyGroup(edge);
    placed := groups + [g];
  }

  /** One group's turn: the same-extension is tried first, then the opposite-extension. */
  method OfferTo(g: DependencyGroup, edge: Edge, ghost v: Group) returns (added: bool)
    requires g.Valid() && g.Value() == v && Unreversed(v)
    modifies g
    ensures added == Accepts(v, edge)
    ensures g.Valid() && g.Value() == if added then Extended(v, edge) else v
  {
    added := g.NextEdgeSame(edge);
    if !added {
      added := g.NextEdgeOpposite(edge);
    }
  }

  /** Computes the reverse edges of every group, in order. */
  method ReverseGroups(groups: seq<DependencyGroup>, ghost vals: seq<Group>)
    requires |groups| == |vals| && Distinct(groups)
    requires forall j :: 0 <= j < |groups| ==> groups[j].Valid() && groups[j].Value() == vals[j]
    modifies groups
    ensures forall j :: 0 <= j < |groups| ==> groups[j].Valid() && groups[j].Value() == WithReverse(vals[j])
  {
    var k := 0;
    while k < |groups|
      invariant 0 <= k <= |groups|
      invariant forall j :: 0 <= j < |groups| ==> groups[j].Valid()
      invariant forall j :: 0 <= j < k ==> groups[j].Value() == WithReverse(vals[j])
      invariant forall j :: k <= j < |groups| ==> groups[j].Value() == vals[j]
    {
      groups[k].DetermineReverse();
      k := k + 1;
    }
  }

  /**
   * After the analysis each group's reverse edges are the per-edge reverses
   * of its edges, in order, one for one.
   */
  lemma AnalyzedReverse(es: seq<Edge>, k: nat)
    requires k < |Classify(es)|
    ensures var g := WithReverse(Classify(es)[k]);
      && g.reverseEdges == ReverseAll(g.edges)
      && |g.reverseEdges| == |g.edges|
      && forall j :: 0 <= j < |g.edges| ==> g.reverseEdges[j] == ReverseEdge(g.edges[j])
  {
  }
}
