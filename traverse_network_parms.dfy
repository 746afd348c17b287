/** The second dependency walk, `houdini/dependency_nodes/traverseNetwork.py`:
    its candidates are the SOP nodes a node references, its inputs, and the
    nodes owning parameters that reference it. The walk does not recurse on
    each new node as it appends it: it remembers the last node appended in
    this call as `curr_node` and recurses on that one, after every candidate
    when there is more than one and once more after the loop. */
module TraverseNetworkParms {
  import opened PyBase
  import opened NodeGraph

  /** `find_nodes`: the SOP references, each once, then the inputs as they
      are, then the owners of the referencing parameters, each once. */
  function Candidates(g: Graph, n: Node): seq<Option<Node>> {
    Somes(Dedup(Filter(g.isSop, g.references(n)))) + g.inputs(n) + Somes(Dedup(g.parmOwners(n)))
  }

  /** The candidate relation the walk follows. */
  function Cands(g: Graph): Node -> seq<Option<Node>> {
    n => Candidates(g, n)
  }

  /** A present candidate is a referenced SOP node, an input, or the owner
      of a parameter referencing the node. */
  lemma CandidateMembers(g: Graph, n: Node, m: Node)
    ensures Some(m) in Candidates(g, n) <==>
            (g.isSop(m) && m in g.references(n)) || Some(m) in g.inputs(n) || m in g.parmOwners(n)
  {
    var refs := Dedup(Filter(g.isSop, g.references(n)));
    var owners := Dedup(g.parmOwners(n));
    SomesMember(refs, m);
    SomesMember(owners, m);
    assert Some(m) in Candidates(g, n) <==>
           Some(m) in Somes(refs) || Some(m) in g.inputs(n) || Some(m) in Somes(owners);
  }

  /** Every candidate of a node of the scene is a node of the scene. */
  lemma CandidatesInScene(g: Graph)
    requires g.Bounded()
    ensures InScene(g.universe, Cands(g))
  {
    forall n, k | n in g.universe && 0 <= k < |Cands(g)(n)| && Cands(g)(n)[k].Some?
      ensures Cands(g)(n)[k].value in g.universe
    {
      var c := Candidates(g, n);
      var refs := Dedup(Filter(g.isSop, g.references(n)));
      var owners := Dedup(g.parmOwners(n));
      assert g.AnswersInScene(n);
      assert Cands(g)(n) == c;
      if k < |refs| {
        assert c[k] == Some(refs[k]);
        assert refs[k] in g.references(n);
      } else if k >= |refs| + |g.inputs(n)| {
        var m := owners[k - |refs| - |g.inputs(n)|];
        assert c[k] == Some(m);
        assert m in g.parmOwners(n);
      } else {
        assert c[k] == g.inputs(n)[k - |refs|];
      }
    }
  }

  /** Every node listed from index `start` on has its candidates listed,
      except perhaps `curr`, which the walk has still to walk from. */
  predicate ClosedExcept(cands: Node -> seq<Option<Node>>, start: nat, s: seq<Node>, curr: Option<Node>) {
    forall k | start <= k < |s| :: Covered(cands(s[k]), s) || (curr.Some? && s[k] == curr.value)
  }

  /** `curr_node`, when set, was appended by this call and is reached from
      the node the call walks from. */
  ghost predicate CurrentFresh(cands: Node -> seq<Option<Node>>, n: Node, start: seq<Node>, s: seq<Node>, curr: Option<Node>) {
    curr.Some? ==> curr.value in s && curr.value !in start && Reachable(cands, n, curr.value)
  }

  /** The loop's state after the candidate at `i` was appended, or found
      already listed or `None`. */
  lemma AfterAppend(cands: Node -> seq<Option<Node>>, n: Node, findNodes: seq<Option<Node>>, i: nat, start: seq<Node>,
                    before: seq<Node>, mid: seq<Node>, currBefore: Option<Node>, currAfter: Option<Node>)
    requires findNodes == cands(n) && i < |findNodes|
    requires start <= before && Covered(findNodes[..i], before)
    requires ClosedSince(cands, |start|, before) && ReachedSince(cands, n, |start|, before)
    requires CurrentFresh(cands, n, start, before, currBefore)
    requires (findNodes[i].Some? && findNodes[i].value !in before && mid == before + [findNodes[i].value] && currAfter == findNodes[i])
          || ((findNodes[i].None? || findNodes[i].value in before) && mid == before && currAfter == currBefore)
    ensures start <= mid && Covered(findNodes[..i + 1], mid)
    ensures ClosedExcept(cands, |start|, mid, currAfter)
    ensures ReachedSince(cands, n, |start|, mid)
    ensures CurrentFresh(cands, n, start, mid, currAfter)
  {
    assert before <= mid;
    PrefixElems(before, mid);
    assert start <= mid by {
      assert mid[..|start|] == before[..|start|];
    }
    assert Covered(findNodes[..i + 1], mid) by {
      CoveredGrow(findNodes[..i], before, mid);
      assert findNodes[..i + 1] == findNodes[..i] + [findNodes[i]];
    }
    ClosedSinceGrow(cands, |start|, before, mid);
    if mid != before {
      var c := findNodes[i].value;
      assert mid[|before|] == c;
      ReachableSelf(cands, c);
      ReachableStep(cands, n, i, c);
      PrefixElems(start, before);
      forall k | |start| <= k < |mid| ensures Reachable(cands, n, mid[k]) {
        if k < |before| {
          assert mid[k] == before[k];
        }
      }
    }
  }

  /** The walk from `curr` leaves every node listed since `start` walked:
      the bookkeeping after the recursion on `curr_node`. */
  lemma AfterPending(cands: Node -> seq<Option<Node>>, n: Node, start: seq<Node>,
                     mid: seq<Node>, after: seq<Node>, curr: Option<Node>)
    requires start <= mid && mid <= after
    requires ClosedExcept(cands, |start|, mid, curr) && ReachedSince(cands, n, |start|, mid)
    requires CurrentFresh(cands, n, start, mid, curr)
    requires curr.None? ==> after == mid
    requires curr.Some? ==> Covered(cands(curr.value), after)
    requires ClosedSince(cands, |mid|, after)
    requires curr.Some? ==> ReachedSince(cands, curr.value, |mid|, after)
    ensures start <= after
    ensures ClosedSince(cands, |start|, after) && ClosedExcept(cands, |start|, after, curr)
    ensures ReachedSince(cands, n, |start|, after)
    ensures CurrentFresh(cands, n, start, after, curr)
  {
    PrefixElems(mid, after);
    assert start <= after by {
      assert after[..|start|] == mid[..|start|];
    }
    forall k | |start| <= k < |after| ensures Covered(cands(after[k]), after) && Reachable(cands, n, after[k]) {
      if k < |mid| {
        assert after[k] == mid[k];
        if Covered(cands(mid[k]), mid) {
          CoveredGrow(cands(mid[k]), mid, after);
        }
      } else {
        ReachableTrans(cands, n, curr.value, after[k]);
      }
    }
  }

  /** `traverseNetwork(node, nodes)`, over the scene's nodes `u` and the
      candidate query `cands` (`Cands(g)` for a network `g`). */
  method Traverse(u: set<Node>, cands: Node -> seq<Option<Node>>, node: Option<Node>, nodes: NodeList)
    requires InScene(u, cands)
    requires node.Some? ==> node.value in u
    requires ValidList(u, nodes.items)
    modifies nodes
    ensures ValidList(u, nodes.items)
    ensures old(nodes.items) <= nodes.items
    ensures node.None? ==> nodes.items == old(nodes.items)
    ensures node.Some? ==> Covered(cands(node.value), nodes.items)
    ensures ClosedSince(cands, |old(nodes.items)|, nodes.items)
    ensures node.Some? ==> ReachedSince(cands, node.value, |old(nodes.items)|, nodes.items)
    decreases |u - Elems(nodes.items)|, if node.None? then 0 else 1
  {
    if node.None? {
      return;
    }
    var n := node.value;
    ghost var start := nodes.items;
    var currNode: Option<Node> := None;
    var findNodes := cands(n);
    var i := 0;
    ghost var visited: seq<Option<Node>> := [];
    while i < |findNodes|
      invariant 0 <= i <= |findNodes|
      invariant ValidList(u, nodes.items)
      invariant start <= nodes.items
      invariant visited == findNodes[..i] && Covered(visited, nodes.items)
      invariant i == 0 || |findNodes| > 1 ==> ClosedSince(cands, |start|, nodes.items)
      invariant ClosedExcept(cands, |start|, nodes.items, currNode)
      invariant ReachedSince(cands, n, |start|, nodes.items)
      invariant CurrentFresh(cands, n, start, nodes.items, currNode)
    {
      ghost var before := nodes.items;
      ghost var currBefore := currNode;
      var c := findNodes[i];
      if c.Some? && !nodes.Has(c.value) {
        AppendFresh(nodes.items, c.value);
        nodes.Append(c.value);
        currNode := c;
      }
      AfterAppend(cands, n, findNodes, i, start, before, nodes.items, currBefore, currNode);
      if |findNodes| > 1 {
        ghost var mid := nodes.items;
        Recurse(u, cands, currNode, nodes, start);
        AfterPending(cands, n, start, mid, nodes.items, currNode);
        CoveredGrow(findNodes[..i + 1], mid, nodes.items);
      }
      visited := findNodes[..i + 1];
      i := i + 1;
    }
    ghost var mid := nodes.items;
    Recurse(u, cands, currNode, nodes, start);
    AfterPending(cands, n, start, mid, nodes.items, currNode);
    assert visited == findNodes;
    CoveredGrow(findNodes, mid, nodes.items);
  }

  /** `traverseNetwork(curr_node, nodes)` from inside a call that started on
      the list `start`: `curr_node` is `None`, or a node that call appended,
      so fewer nodes are unlisted than when that call started. */
  method Recurse(u: set<Node>, cands: Node -> seq<Option<Node>>, curr: Option<Node>, nodes: NodeList, ghost start: seq<Node>)
    requires InScene(u, cands)
    requires ValidList(u, nodes.items) && start <= nodes.items
    requires curr.Some? ==> curr.value in nodes.items && curr.value !in start
    modifies nodes
    ensures ValidList(u, nodes.items)
    ensures old(nodes.items) <= nodes.items
    ensures curr.None? ==> nodes.items == old(nodes.items)
    ensures curr.Some? ==> Covered(cands(curr.value), nodes.items)
    ensures ClosedSince(cands, |old(nodes.items)|, nodes.items)
    ensures curr.Some? ==> ReachedSince(cands, curr.value, |old(nodes.items)|, nodes.items)
    decreases |u - Elems(start)|, 0
  {
    PrefixElems(start, nodes.items);
    if curr.Some? {
      FewerUnlisted(u, start, nodes.items, curr.value);
      Traverse(u, cands, curr, nodes);
    }
  }

  /** `dependencyNodes(node)`: the walk from the node and from each of its
      input ancestors, the node itself listed first. */
  method DependencyNodes(g: Graph, node: Node) returns (result: seq<Node>)
    requires g.Bounded() && node in g.universe
    ensures NoDup(result) && forall k | 0 <= k < |result| :: result[k] in g.universe
    ensures |result| > 0 && result[0] == node
    ensures forall k | 0 <= k < |g.inputAncestors(node)| :: g.inputAncestors(node)[k] in result
    ensures ClosedSince(Cands(g), 0, result)
    ensures AllReachedFrom(Cands(g), [node] + g.inputAncestors(node), result)
  {
    var nodes := new NodeList();
    var starts := [node] + g.inputAncestors(node);
    assert g.AnswersInScene(node);
    CandidatesInScene(g);
    WalkStarts(g.universe, Cands(g), starts, nodes);
    result := nodes.items;
    forall k | 0 <= k < |g.inputAncestors(node)| ensures g.inputAncestors(node)[k] in result {
      assert starts[k + 1] == g.inputAncestors(node)[k];
    }
  }

  /** The loop of `dependencyNodes` over the start nodes, on an empty list. */
  method WalkStarts(u: set<Node>, cands: Node -> seq<Option<Node>>, starts: seq<Node>, nodes: NodeList)
    requires InScene(u, cands) && |starts| > 0 && nodes.items == []
    requires forall k | 0 <= k < |starts| :: starts[k] in u
    modifies nodes
    ensures ValidList(u, nodes.items) && ClosedSince(cands, 0, nodes.items)
    ensures forall k | 0 <= k < |starts| :: starts[k] in nodes.items
    ensures |nodes.items| > 0 && nodes.items[0] == starts[0]
    ensures AllReachedFrom(cands, starts, nodes.items)
  {
    var i := 0;
    ghost var sofar: seq<Node> := [];
    while i < |starts|
      invariant 0 <= i <= |starts|
      invariant ValidList(u, nodes.items)
      invariant ClosedSince(cands, 0, nodes.items)
      invariant forall k | 0 <= k < i :: starts[k] in nodes.items
      invariant i > 0 ==> |nodes.items| > 0 && nodes.items[0] == starts[0]
      invariant i == 0 ==> nodes.items == []
      invariant sofar == starts[..i] && AllReachedFrom(cands, sofar, nodes.items)
    {
      var x := starts[i];
      ghost var before := nodes.items;
      if !nodes.Has(x) {
        AppendFresh(nodes.items, x);
        nodes.Append(x);
      }
      ghost var listed := nodes.items;
      Traverse(u, cands, Some(x), nodes);
      AfterStart(cands, starts, i, before, listed, nodes.items);
      assert i == 0 ==> nodes.items[0] == starts[0] by {
        if i == 0 {
          assert listed == [x] && nodes.items[..1] == listed;
        }
      }
      sofar := starts[..i + 1];
      i := i + 1;
    }
    assert sofar == starts;
  }
}
