/** The dependency walk of `houdini/dependency_nodes/traversenetwork.py`:
    from a node, look at its inputs and then at the SOP nodes among its
    dependents and references; every one not yet listed is appended and
    walked from at once. `dependencyNodes` runs the walk from the node and
    from each of its input ancestors. */
module TraverseNetwork {
  import opened PyBase
  import opened NodeGraph

  /** `find_nodes`: the inputs as they are, then the SOP dependents and
      references, each once. */
  function Candidates(g: Graph, n: Node): (r: seq<Option<Node>>)
    ensures |r| >= |g.inputs(n)| && r[..|g.inputs(n)|] == g.inputs(n)
  {
    g.inputs(n) + Somes(Dedup(Filter(g.isSop, g.dependents(n) + g.references(n))))
  }

  /** The candidate relation the walk follows. */
  function Cands(g: Graph): Node -> seq<Option<Node>> {
    n => Candidates(g, n)
  }

  /** A present candidate is an input, or a SOP node among the dependents
      and references. */
  lemma CandidateMembers(g: Graph, n: Node, m: Node)
    ensures Some(m) in Candidates(g, n) <==>
            Some(m) in g.inputs(n) || (g.isSop(m) && (m in g.dependents(n) || m in g.references(n)))
  {
    var tail := Dedup(Filter(g.isSop, g.dependents(n) + g.references(n)));
    SomesMember(tail, m);
    assert Some(m) in Candidates(g, n) <==> Some(m) in g.inputs(n) || Some(m) in Somes(tail);
  }

  /** Every candidate of a node of the scene is a node of the scene. */
  lemma CandidatesInScene(g: Graph)
    requires g.Bounded()
    ensures InScene(g.universe, Cands(g))
  {
    forall n, k | n in g.universe && 0 <= k < |Cands(g)(n)| && Cands(g)(n)[k].Some?
      ensures Cands(g)(n)[k].value in g.universe
    {
      var c := Candidates(g, n);
      var tail := Dedup(Filter(g.isSop, g.dependents(n) + g.references(n)));
      assert g.AnswersInScene(n);
      assert Cands(g)(n) == c;
      if k >= |g.inputs(n)| {
        var m := tail[k - |g.inputs(n)|];
        assert c[k] == Some(m);
        assert m in g.dependents(n) + g.references(n);
      }
    }
  }

  /** The loop invariant of `Traverse` after the candidate at `i` was
      visited. */
  lemma AfterVisit(cands: Node -> seq<Option<Node>>, n: Node, findNodes: seq<Option<Node>>, i: nat,
                   start: seq<Node>, before: seq<Node>, after: seq<Node>)
    requires findNodes == cands(n) && i < |findNodes|
    requires start <= before && Covered(findNodes[..i], before)
    requires ClosedSince(cands, |start|, before) && ReachedSince(cands, n, |start|, before)
    requires before <= after
    requires findNodes[i].Some? ==> findNodes[i].value in after
    requires ClosedSince(cands, |before|, after)
    requires findNodes[i].Some? ==> ReachedSince(cands, findNodes[i].value, |before|, after)
    requires findNodes[i].None? ==> after == before
    ensures start <= after && Covered(findNodes[..i + 1], after)
    ensures ClosedSince(cands, |start|, after) && ReachedSince(cands, n, |start|, after)
  {
    PrefixElems(before, after);
    assert start <= after by {
      assert after[..|start|] == before[..|start|];
    }
    assert Covered(findNodes[..i + 1], after) by {
      CoveredGrow(findNodes[..i], before, after);
      assert findNodes[..i + 1] == findNodes[..i] + [findNodes[i]];
    }
    ClosedSinceGrow(cands, |start|, before, after);
    forall k | |start| <= k < |after| ensures Reachable(cands, n, after[k]) {
      if k < |before| {
        assert after[k] == before[k];
      } else {
        ReachableStep(cands, n, i, after[k]);
      }
    }
  }

  /** `traverseNetwork(node, nodes)`, over the scene's nodes `u` and the
      candidate query `cands` (`Cands(g)` for a network `g`). */
  method Traverse(u: set<Node>, cands: Node -> seq<Option<Node>>, node: Option<Node>, nodes: NodeList)
    requires InScene(u, cands)
    requires node.Some? ==> node.value in u
    requires ValidList(u, nodes.items)
    modifies nodes
    ensures ValidList(u, nodes.items)
    ensures old(nodes.items) <= nodes.items
    ensures node.None? ==> nodes.items == old(nodes.items)
    ensures node.Some? ==> Covered(cands(node.value), nodes.items)
    ensures ClosedSince(cands, |old(nodes.items)|, nodes.items)
    ensures node.Some? ==> ReachedSince(cands, node.value, |old(nodes.items)|, nodes.items)
    decreases |u - Elems(nodes.items)|, 1
  {
    if node.None? {
      return;
    }
    var n := node.value;
    ghost var start := nodes.items;
    var findNodes := cands(n);
    var i := 0;
    ghost var visited: seq<Option<Node>> := [];
    while i < |findNodes|
      invariant 0 <= i <= |findNodes|
      invariant ValidList(u, nodes.items)
      invariant start <= nodes.items
      invariant visited == findNodes[..i] && Covered(visited, nodes.items)
      invariant ClosedSince(cands, |start|, nodes.items)
      invariant ReachedSince(cands, n, |start|, nodes.items)
    {
      ghost var before := nodes.items;
      PrefixElems(start, before);
      NoMoreUnlisted(u, start, before);
      Visit(u, cands, findNodes[i], nodes);
      AfterVisit(cands, n, findNodes, i, start, before, nodes.items);
      visited := findNodes[..i + 1];
      i := i + 1;
    }
    assert visited == findNodes;
  }

  /** One pass of the loop in `traverseNetwork`: a present candidate not yet
      listed is appended and walked from. */
  method Visit(u: set<Node>, cands: Node -> seq<Option<Node>>, c: Option<Node>, nodes: NodeList)
    requires InScene(u, cands)
    requires c.Some? ==> c.value in u
    requires ValidList(u, nodes.items)
    modifies nodes
    ensures ValidList(u, nodes.items)
    ensures old(nodes.items) <= nodes.items
    ensures c.Some? ==> c.value in nodes.items
    ensures c.None? || c.value in old(nodes.items) ==> nodes.items == old(nodes.items)
    ensures ClosedSince(cands, |old(nodes.items)|, nodes.items)
    ensures c.Some? ==> ReachedSince(cands, c.value, |old(nodes.items)|, nodes.items)
    decreases |u - Elems(nodes.items)|, 0
  {
    if c.Some? && !nodes.Has(c.value) {
      ghost var before := nodes.items;
      AppendFresh(nodes.items, c.value);
      nodes.Append(c.value);
      PrefixElems(before, nodes.items);
      FewerUnlisted(u, before, nodes.items, c.value);
      Traverse(u, cands, c, nodes);
      VisitAppended(cands, c.value, before, nodes.items);
    }
  }

  /** A visit that appended `c` and walked from it. */
  lemma VisitAppended(cands: Node -> seq<Option<Node>>, c: Node, before: seq<Node>, after: seq<Node>)
    requires before + [c] <= after
    requires Covered(cands(c), after)
    requires ClosedSince(cands, |before| + 1, after)
    requires ReachedSince(cands, c, |before| + 1, after)
    ensures before <= after && c in after
    ensures ClosedSince(cands, |before|, after)
    ensures ReachedSince(cands, c, |before|, after)
  {
    assert after[..|before|] == (before + [c])[..|before|] == before;
    assert after[|before|] == c;
    ReachableSelf(cands, c);
  }

  /** `dependencyNodes(node)`: the walk from the node and from each of its
      input ancestors, the node itself listed first. */
  method DependencyNodes(g: Graph, node: Node) returns (result: seq<Node>)
    requires g.Bounded() && node in g.universe
    ensures NoDup(result) && forall k | 0 <= k < |result| :: result[k] in g.universe
    ensures |result| > 0 && result[0] == node
    ensures forall k | 0 <= k < |g.inputAncestors(node)| :: g.inputAncestors(node)[k] in result
    ensures ClosedSince(Cands(g), 0, result)
    ensures AllReachedFrom(Cands(g), [node] + g.inputAncestors(node), result)
  {
    var nodes := new NodeList();
    var starts := [node] + g.inputAncestors(node);
    assert g.AnswersInScene(node);
    CandidatesInScene(g);
    WalkStarts(g.universe, Cands(g), starts, nodes);
    result := nodes.items;
    forall k | 0 <= k < |g.inputAncestors(node)| ensures g.inputAncestors(node)[k] in result {
      assert starts[k + 1] == g.inputAncestors(node)[k];
    }
  }

  /** The loop of `dependencyNodes` over the start nodes, on an empty list. */
  method WalkStarts(u: set<Node>, cands: Node -> seq<Option<Node>>, starts: seq<Node>, nodes: NodeList)
    requires InScene(u, cands) && |starts| > 0 && nodes.items == []
    requires forall k | 0 <= k < |starts| :: starts[k] in u
    modifies nodes
    ensures ValidList(u, nodes.items) && ClosedSince(cands, 0, nodes.items)
    ensures forall k | 0 <= k < |starts| :: starts[k] in nodes.items
    ensures |nodes.items| > 0 && nodes.items[0] == starts[0]
    ensures AllReachedFrom(cands, starts, nodes.items)
  {
    var i := 0;
    ghost var sofar: seq<Node> := [];
    while i < |starts|
      invariant 0 <= i <= |starts|
      invariant ValidList(u, nodes.items)
      invariant ClosedSince(cands, 0, nodes.items)
      invariant forall k | 0 <= k < i :: starts[k] in nodes.items
      invariant i > 0 ==> |nodes.items| > 0 && nodes.items[0] == starts[0]
      invariant i == 0 ==> nodes.items == []
      invariant sofar == starts[..i] && AllReachedFrom(cands, sofar, nodes.items)
    {
      var x := starts[i];
      ghost var before := nodes.items;
      if !nodes.Has(x) {
        AppendFresh(nodes.items, x);
        nodes.Append(x);
      }
      ghost var listed := nodes.items;
      Traverse(u, cands, Some(x), nodes);
      AfterStart(cands, starts, i, before, listed, nodes.items);
      assert i == 0 ==> nodes.items[0] == starts[0] by {
        if i == 0 {
          assert listed == [x] && nodes.items[..1] == listed;
        }
      }
      sofar := starts[..i + 1];
      i := i + 1;
    }
    assert sofar == starts;
  }
}
