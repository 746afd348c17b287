/** The node network the dependency walks run over, as far as they query it:
    a node's inputs (an unconnected input is `None`), its dependents, the
    nodes it references, the nodes owning parameters that reference it, its
    input ancestors, and whether it is a top-level SOP (`isSopNode`). The
    network is not changed by a walk, so each query is a function. The nodes
    of the scene form the finite set `universe`. */
module NodeGraph {
  import opened PyBase

  /** A `hou.OpNode`. */
  type Node(==, !new)

  datatype Graph = Graph(
    universe: set<Node>,
    inputs: Node -> seq<Option<Node>>,
    dependents: Node -> seq<Node>,
    references: Node -> seq<Node>,
    parmOwners: Node -> seq<Node>,
    inputAncestors: Node -> seq<Node>,
    isSop: Node -> bool)
  {
    /** Every query on a node of the scene answers nodes of the scene. */
    predicate Bounded() {
      forall n | n in universe :: AnswersInScene(n)
    }

    predicate AnswersInScene(n: Node) {
      (forall k | 0 <= k < |inputs(n)| :: inputs(n)[k].Some? ==> inputs(n)[k].value in universe) &&
      (forall k | 0 <= k < |dependents(n)| :: dependents(n)[k] in universe) &&
      (forall k | 0 <= k < |references(n)| :: references(n)[k] in universe) &&
      (forall k | 0 <= k < |parmOwners(n)| :: parmOwners(n)[k] in universe) &&
      (forall k | 0 <= k < |inputAncestors(n)| :: inputAncestors(n)[k] in universe)
    }
  }

  // ---------------------------------------------------------------------
  // Sequences as Python lists and sets

  predicate NoDup<T(==)>(s: seq<T>) {
    forall i, j | 0 <= i < j < |s| :: s[i] != s[j]
  }

  function Elems<T>(s: seq<T>): set<T> {
    set x | x in s
  }

  /** `filter(p, s)`. */
  function Filter(p: Node -> bool, s: seq<Node>): (r: seq<Node>)
    ensures forall x :: x in r <==> x in s && p(x)
    decreases |s|
  {
    if |s| == 0 then [] else (if p(s[0]) then [s[0]] else []) + Filter(p, s[1..])
  }

  /** `set(s)` iterated: each element once, in the order of its first
      occurrence. */
  function Dedup(s: seq<Node>): (r: seq<Node>)
    ensures forall x :: x in r <==> x in s
    ensures NoDup(r)
    decreases |s|
  {
    if |s| == 0 then []
    else
      var d := Dedup(s[..|s| - 1]);
      if s[|s| - 1] in d then d else d + [s[|s| - 1]]
  }

  /** The elements of a sequence as present nodes. */
  function Somes(s: seq<Node>): (r: seq<Option<Node>>)
    ensures |r| == |s|
    ensures forall k | 0 <= k < |s| :: r[k] == Some(s[k])
    decreases |s|
  {
    if |s| == 0 then [] else [Some(s[0])] + Somes(s[1..])
  }

  lemma SomesMember(s: seq<Node>, x: Node)
    ensures Some(x) in Somes(s) <==> x in s
  {
    if Some(x) in Somes(s) {
      var k :| 0 <= k < |Somes(s)| && Somes(s)[k] == Some(x);
      assert s[k] == x;
    }
    if x in s {
      var k :| 0 <= k < |s| && s[k] == x;
      assert Somes(s)[k] == Some(x);
    }
  }

  /** Every present node of `cands` is in `s`. */
  predicate Covered(cands: seq<Option<Node>>, s: seq<Node>) {
    forall k | 0 <= k < |cands| :: cands[k].Some? ==> cands[k].value in s
  }

  // ---------------------------------------------------------------------
  // The list the walks append to

  /** The Python list `nodes` shared by the recursive calls of a walk. */
  class NodeList {
    var items: seq<Node>

    constructor ()
      ensures items == []
    {
      items := [];
    }

    /** `nodes.append(x)`. */
    method Append(x: Node)
      modifies this
      ensures items == old(items) + [x]
    {
      items := items + [x];
    }

    /** `x in nodes`. */
    predicate Has(x: Node)
      reads this
    {
      x in items
    }
  }

  /** Appending a node not yet listed keeps the list without duplicates. */
  lemma AppendFresh(s: seq<Node>, x: Node)
    requires NoDup(s) && x !in s
    ensures NoDup(s + [x])
  {
    forall i, j | 0 <= i < j < |s + [x]| ensures (s + [x])[i] != (s + [x])[j] {
      if j == |s| {
        assert (s + [x])[i] == s[i];
      }
    }
  }

  /** Listing one more node of the scene leaves fewer unlisted ones. */
  lemma FewerUnlisted(u: set<Node>, before: seq<Node>, after: seq<Node>, x: Node)
    requires Elems(before) <= Elems(after) && x in u && x in after && x !in before
    ensures |u - Elems(after)| < |u - Elems(before)|
  {
    var a, b := u - Elems(before), u - Elems(after);
    assert b <= a;
    assert a == b + (a - b) && b * (a - b) == {};
    assert x in a - b;
    assert |a| == |b| + |a - b|;
  }

  /** Whatever a list holds, a list it is a prefix of holds too. */
  lemma PrefixElems(s: seq<Node>, t: seq<Node>)
    requires s <= t
    ensures Elems(s) <= Elems(t)
    ensures forall x | x in s :: x in t
  {
    forall x | x in s ensures x in t {
      var k :| 0 <= k < |s| && s[k] == x;
      assert t[k] == x;
    }
  }

  /** Growing the list never leaves more nodes unlisted. */
  lemma NoMoreUnlisted(u: set<Node>, before: seq<Node>, after: seq<Node>)
    requires Elems(before) <= Elems(after)
    ensures |u - Elems(after)| <= |u - Elems(before)|
  {
    var a, b := u - Elems(before), u - Elems(after);
    assert a == b + (a - b) && b * (a - b) == {};
    assert |a| == |b| + |a - b|;
  }

  lemma CoveredGrow(cands: seq<Option<Node>>, s: seq<Node>, t: seq<Node>)
    requires Covered(cands, s) && s <= t
    ensures Covered(cands, t)
  {
    PrefixElems(s, t);
  }

  // ---------------------------------------------------------------------
  // What a walk keeps of the shared list

  /** No node twice, nodes of the scene only. */
  predicate ValidList(u: set<Node>, s: seq<Node>) {
    NoDup(s) && forall k | 0 <= k < |s| :: s[k] in u
  }

  /** Every candidate of a node of the scene is a node of the scene. */
  predicate InScene(u: set<Node>, cands: Node -> seq<Option<Node>>) {
    forall n, k | n in u && 0 <= k < |cands(n)| :: cands(n)[k].Some? ==> cands(n)[k].value in u
  }

  /** The nodes listed from index `start` on all have their candidates
      listed; from 0, the whole list is closed under the candidates. */
  predicate ClosedSince(cands: Node -> seq<Option<Node>>, start: nat, s: seq<Node>) {
    forall k | start <= k < |s| :: Covered(cands(s[k]), s)
  }

  /** The nodes listed from index `start` on are all reached from `n`. */
  ghost predicate ReachedSince(cands: Node -> seq<Option<Node>>, n: Node, start: nat, s: seq<Node>) {
    forall k | start <= k < |s| :: Reachable(cands, n, s[k])
  }

  lemma ClosedSinceGrow(cands: Node -> seq<Option<Node>>, start: nat, s: seq<Node>, t: seq<Node>)
    requires ClosedSince(cands, start, s) && s <= t
    ensures forall k | start <= k < |s| :: Covered(cands(t[k]), t)
  {
    forall k | start <= k < |s| ensures Covered(cands(t[k]), t) {
      assert t[k] == s[k];
      CoveredGrow(cands(s[k]), s, t);
    }
  }

  // ---------------------------------------------------------------------
  // Reachability along a candidate relation

  /** `y` is reached from `x` in at most `k` steps, each to a present
      candidate. */
  predicate ReachIn(cands: Node -> seq<Option<Node>>, x: Node, y: Node, k: nat)
    decreases k
  {
    x == y || (k > 0 && exists i | 0 <= i < |cands(x)| :: cands(x)[i].Some? && ReachIn(cands, cands(x)[i].value, y, k - 1))
  }

  ghost predicate Reachable(cands: Node -> seq<Option<Node>>, x: Node, y: Node) {
    exists k: nat :: ReachIn(cands, x, y, k)
  }

  /** One step to a candidate and then on. */
  lemma ReachableStep(cands: Node -> seq<Option<Node>>, x: Node, i: nat, y: Node)
    requires i < |cands(x)| && cands(x)[i].Some? && Reachable(cands, cands(x)[i].value, y)
    ensures Reachable(cands, x, y)
  {
    var k: nat :| ReachIn(cands, cands(x)[i].value, y, k);
    assert ReachIn(cands, x, y, k + 1);
  }

  lemma {:induction false} ReachInTrans(cands: Node -> seq<Option<Node>>, x: Node, y: Node, z: Node, k1: nat, k2: nat)
    requires ReachIn(cands, x, y, k1) && ReachIn(cands, y, z, k2)
    ensures ReachIn(cands, x, z, k1 + k2)
    decreases k1
  {
    if x == y {
      ReachInMore(cands, y, z, k2, k1 + k2);
    } else {
      var i :| 0 <= i < |cands(x)| && cands(x)[i].Some? && ReachIn(cands, cands(x)[i].value, y, k1 - 1);
      ReachInTrans(cands, cands(x)[i].value, y, z, k1 - 1, k2);
    }
  }

  /** More steps allowed reach at least as far. */
  lemma {:induction false} ReachInMore(cands: Node -> seq<Option<Node>>, x: Node, y: Node, k: nat, m: nat)
    requires ReachIn(cands, x, y, k) && k <= m
    ensures ReachIn(cands, x, y, m)
    decreases k
  {
    if x != y {
      var i :| 0 <= i < |cands(x)| && cands(x)[i].Some? && ReachIn(cands, cands(x)[i].value, y, k - 1);
      ReachInMore(cands, cands(x)[i].value, y, k - 1, m - 1);
    }
  }

  lemma ReachableTrans(cands: Node -> seq<Option<Node>>, x: Node, y: Node, z: Node)
    requires Reachable(cands, x, y) && Reachable(cands, y, z)
    ensures Reachable(cands, x, z)
  {
    var k1: nat :| ReachIn(cands, x, y, k1);
    var k2: nat :| ReachIn(cands, y, z, k2);
    ReachInTrans(cands, x, y, z, k1, k2);
  }

  lemma ReachableSelf(cands: Node -> seq<Option<Node>>, x: Node)
    ensures Reachable(cands, x, x)
  {
    assert ReachIn(cands, x, x, 0);
  }

  /** A closed list holding `x` holds everything reachable from `x`. */
  lemma {:induction false} ClosedHoldsReachIn(cands: Node -> seq<Option<Node>>, s: seq<Node>, x: Node, y: Node, k: nat)
    requires ClosedSince(cands, 0, s) && x in s && ReachIn(cands, x, y, k)
    ensures y in s
    decreases k
  {
    if x != y {
      var i :| 0 <= i < |cands(x)| && cands(x)[i].Some? && ReachIn(cands, cands(x)[i].value, y, k - 1);
      var j :| 0 <= j < |s| && s[j] == x;
      assert Covered(cands(s[j]), s);
      ClosedHoldsReachIn(cands, s, cands(x)[i].value, y, k - 1);
    }
  }

  lemma ClosedHoldsReachable(cands: Node -> seq<Option<Node>>, s: seq<Node>, x: Node, y: Node)
    requires ClosedSince(cands, 0, s) && x in s && Reachable(cands, x, y)
    ensures y in s
  {
    var k: nat :| ReachIn(cands, x, y, k);
    ClosedHoldsReachIn(cands, s, x, y, k);
  }

  /** A list closed under candidates holds everything reachable from any
      of its nodes. */
  lemma ClosedHoldsAllReachable(cands: Node -> seq<Option<Node>>, s: seq<Node>, x: Node)
    requires ClosedSince(cands, 0, s) && x in s
    ensures forall y | Reachable(cands, x, y) :: y in s
  {
    forall y | Reachable(cands, x, y) ensures y in s {
      ClosedHoldsReachable(cands, s, x, y);
    }
  }

  /** Some start node reaches `y`. */
  ghost predicate ReachedFrom(cands: Node -> seq<Option<Node>>, starts: seq<Node>, y: Node) {
    exists j | 0 <= j < |starts| :: Reachable(cands, starts[j], y)
  }

  /** Every listed node is reached from some start node. */
  ghost predicate AllReachedFrom(cands: Node -> seq<Option<Node>>, starts: seq<Node>, s: seq<Node>) {
    forall k | 0 <= k < |s| :: ReachedFrom(cands, starts, s[k])
  }

  /** The loop invariant of `dependencyNodes` after start node `i` was
      listed (if it was not yet) and walked from. */
  lemma AfterStart(cands: Node -> seq<Option<Node>>, starts: seq<Node>, i: nat, before: seq<Node>, listed: seq<Node>, after: seq<Node>)
    requires i < |starts|
    requires ClosedSince(cands, 0, before)
    requires AllReachedFrom(cands, starts[..i], before)
    requires (starts[i] in before && listed == before) || (starts[i] !in before && listed == before + [starts[i]])
    requires listed <= after
    requires Covered(cands(starts[i]), after)
    requires ClosedSince(cands, |listed|, after)
    requires ReachedSince(cands, starts[i], |listed|, after)
    requires forall k | 0 <= k < i :: starts[k] in before
    ensures before <= after && starts[i] in after
    ensures forall k | 0 <= k < i + 1 :: starts[k] in after
    ensures ClosedSince(cands, 0, after)
    ensures AllReachedFrom(cands, starts[..i + 1], after)
  {
    var x := starts[i];
    assert before <= after by {
      assert after[..|before|] == listed[..|before|] == before;
    }
    PrefixElems(before, after);
    assert x in listed by {
      if listed != before {
        assert listed[|before|] == x;
      }
    }
    PrefixElems(listed, after);
    ClosedSinceGrow(cands, 0, before, after);
    forall k | 0 <= k < |after| ensures Covered(cands(after[k]), after) {
      if |before| <= k < |listed| {
        assert after[k] == x;
      }
    }
    forall k | 0 <= k < |after| ensures ReachedFrom(cands, starts[..i + 1], after[k]) {
      if k < |before| {
        assert after[k] == before[k];
        var j :| 0 <= j < i && Reachable(cands, starts[..i][j], before[k]);
        assert starts[..i + 1][j] == starts[..i][j];
      } else if k < |listed| {
        assert after[k] == x && starts[..i + 1][i] == x;
        ReachableSelf(cands, x);
      } else {
        assert starts[..i + 1][i] == x;
        assert Reachable(cands, x, after[k]);
      }
    }
  }
}
