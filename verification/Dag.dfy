/** The acyclic graph of strongly connected components (core/dag.cpp): what its nodes are
    meant to say about the function. */
module Dag {
  import opened Cfg

  datatype Term = Goto | Return | TailCall | Trap | Raise

  /** Blocks with their instruction counts and terminators. */
  datatype Body = Body(g: Graph, size: seq<nat>, term: seq<Term>)
  {
    ghost predicate Valid() {
      g.Valid() && |size| == |term| == |g.succs|
    }
  }

  /** Traps tells about the node itself; it is not propagated. */
  datatype Node = Node(blocks: set<nat>, succs: seq<nat>, preds: seq<nat>, length: nat,
    isLoop: bool, canReturn: bool, traps: bool, isReturn: bool, isTrap: bool)

  predicate Returning(t: Term) {
    t.Return? || t.TailCall?
  }

  ghost predicate Connected(g: Graph, a: nat, b: nat) {
    exists p :: PathFromTo(g, p, a, b)
  }

  ghost predicate PathFromTo(g: Graph, p: seq<nat>, a: nat, b: nat) {
    Path(g, p) && p[0] == a && p[|p| - 1] == b
  }

  /** The components in reverse topological order, as the component iterator gives them. */
  datatype Sccs = Sccs(f: Body, sccs: seq<seq<nat>>)
  {
    ghost predicate Valid() {
      && f.Valid()
      && (forall i, k :: 0 <= i < |sccs| && 0 <= k < |sccs[i]| ==> sccs[i][k] < |f.g.succs|)
      && (forall i :: 0 <= i < |sccs| ==> |sccs[i]| > 0 && Distinct(sccs[i]))
      && (forall i, j, b: nat :: 0 <= i < j < |sccs| && b in sccs[i] ==> b !in sccs[j])
      && (forall i, a: nat, b: nat :: 0 <= i < |sccs| && a in sccs[i] && b in sccs[i] ==> Connected(f.g, a, b))
      && (forall i, a: nat, b: nat :: 0 <= i < |sccs| && a in sccs[i] && Edge(f.g, a, b) ==> InUpTo(b, i))
    }

    /** b lies in one of the components up to i. */
    ghost predicate InUpTo(b: nat, i: nat) {
      exists j :: 0 <= j <= i && j < |sccs| && b in sccs[j]
    }

    ghost predicate DagEdge(i: nat, j: nat) {
      i < |sccs| && j < |sccs| && i != j && exists a: nat, b: nat :: a in sccs[i] && b in sccs[j] && Edge(f.g, a, b)
    }

    ghost predicate InnerEdge(i: nat) {
      i < |sccs| && exists a: nat, b: nat :: a in sccs[i] && b in sccs[i] && Edge(f.g, a, b)
    }
  }

  ghost predicate Distinct(s: seq<nat>) {
    forall i, j :: 0 <= i < j < |s| ==> s[i] != s[j]
  }

  function Total(f: Body, blocks: seq<nat>): nat {
    if blocks == [] then 0
    else
      var b := blocks[|blocks| - 1];
      Total(f, blocks[..|blocks| - 1]) + if b < |f.size| then f.size[b] else 0
  }

  // ---------------------------------------------------------------- the order of successors

  /** Nodes that return first, then nodes that do not trap, then longer ones. */
  predicate Less(a: Node, b: Node) {
    if a.canReturn == b.canReturn then
      if a.traps == b.traps then a.length > b.length else !a.traps
    else a.canReturn
  }

  /** The comparison is a strict weak order, as sorting demands. */
  lemma StrictWeakOrder(a: Node, b: Node, c: Node)
    ensures !Less(a, a)
    ensures Less(a, b) ==> !Less(b, a)
    ensures Less(a, b) && Less(b, c) ==> Less(a, c)
    ensures !Less(a, b) && !Less(b, a) && !Less(b, c) && !Less(c, b) ==> !Less(a, c) && !Less(c, a)
  {
  }

  /** a may come before b: no node that returns follows one that does not; between nodes that do
      alike, none that does not trap follows one that does; and between nodes alike in both none
      follows a shorter one. */
  ghost predicate MayPrecede(a: Node, b: Node) {
    && (b.canReturn ==> a.canReturn)
    && (a.canReturn == b.canReturn ==> (a.traps ==> b.traps))
    && (a.canReturn == b.canReturn && a.traps == b.traps ==> a.length >= b.length)
  }

  lemma LessExact(a: Node, b: Node)
    ensures MayPrecede(a, b) <==> !Less(b, a)
  {
  }

  // ---------------------------------------------------------------- nodes, locally

  /** What the constructor computes for node i from the nodes before it. */
  ghost predicate Solved(x: Sccs, nodes: seq<Node>, i: nat)
    requires i < |x.sccs| && i < |nodes|
  {
    && nodes[i].blocks == (set b | b in x.sccs[i])
    && (forall j: nat :: j in nodes[i].succs <==> x.DagEdge(i, j))
    && (forall j: nat :: j in nodes[i].succs ==> j < i)
    && Distinct(nodes[i].succs)
    && (nodes[i].isLoop <==> |x.sccs[i]| > 1 || x.InnerEdge(i))
    && (nodes[i].isReturn <==> ReturnsHere(x, i))
    && (nodes[i].canReturn <==> ReturnsHere(x, i) || exists j: nat ::
         j in nodes[i].succs && j < i && nodes[j].canReturn)
    && (nodes[i].isTrap <==> TrapsHere(x, i)) && (nodes[i].traps <==> TrapsHere(x, i))
    && nodes[i].length >= Total(x.f, x.sccs[i])
    && (forall j: nat :: j in nodes[i].succs && j < i ==> nodes[i].length >= nodes[j].length + Total(x.f, x.sccs[i]))
    && (nodes[i].length == Total(x.f, x.sccs[i]) ||
        exists j: nat :: j in nodes[i].succs && j < i && nodes[i].length == nodes[j].length + Total(x.f, x.sccs[i]))
  }

  ghost predicate ReturnsHere(x: Sccs, i: nat)
    requires i < |x.sccs|
  {
    exists b: nat :: b in x.sccs[i] && b < |x.f.term| && Returning(x.f.term[b])
  }

  ghost predicate TrapsHere(x: Sccs, i: nat)
    requires i < |x.sccs|
  {
    exists b: nat :: b in x.sccs[i] && b < |x.f.term| && x.f.term[b].Trap?
  }

  ghost predicate AllSolved(x: Sccs, nodes: seq<Node>) {
    |nodes| == |x.sccs| && forall i: nat :: i < |nodes| ==> Solved(x, nodes, i)
  }

  /** Predecessor lists mirror successor lists. */
  ghost predicate Mirrored(nodes: seq<Node>) {
    forall i: nat, j: nat :: i < |nodes| && j < |nodes| ==>
      (i in nodes[j].preds <==> j in nodes[i].succs) && Distinct(nodes[j].preds)
  }

  ghost predicate SuccsSorted(nodes: seq<Node>, i: nat)
    requires i < |nodes|
  {
    && (forall a :: 0 <= a < |nodes[i].succs| ==> nodes[i].succs[a] < |nodes|)
    && forall a, b :: 0 <= a < b < |nodes[i].succs| ==> MayPrecede(nodes[nodes[i].succs[a]], nodes[nodes[i].succs[b]])
  }

  // ---------------------------------------------------------------- nodes, globally

  lemma JoinPaths(g: Graph, a: nat, b: nat, c: nat, d: nat)
    requires Connected(g, a, b) && Edge(g, b, c) && Connected(g, c, d)
    ensures Connected(g, a, d)
    ensures exists p :: PathFromTo(g, p, a, d) && |p| >= 2
  {
    var p :| PathFromTo(g, p, a, b);
    var q :| PathFromTo(g, q, c, d);
    ConcatPath(g, p, q);
    assert PathFromTo(g, p + q, a, d);
  }

  /** b lies on a cycle. */
  ghost predicate OnCycle(g: Graph, b: nat) {
    exists p :: PathFromTo(g, p, b, b) && |p| >= 2
  }

  /** The tail of a path. */
  lemma TailPath(g: Graph, p: seq<nat>)
    requires Path(g, p) && |p| >= 2
    ensures Path(g, p[1..]) && Edge(g, p[0], p[1])
  {
    forall i | 0 <= i < |p[1..]| - 1
      ensures Edge(g, p[1..][i], p[1..][i + 1])
    {
      assert Edge(g, p[i + 1], p[i + 2]);
    }
  }

  /** A path never climbs: it ends in a component not above the one it starts in. */
  lemma {:induction false} Descends(x: Sccs, p: seq<nat>, i: nat)
    requires x.Valid() && Path(x.f.g, p) && i < |x.sccs| && p[0] in x.sccs[i]
    ensures x.InUpTo(p[|p| - 1], i)
    decreases |p|
  {
    if |p| > 1 {
      TailPath(x.f.g, p);
      assert x.InUpTo(p[1], i);
      var j: nat :| j <= i && j < |x.sccs| && p[1] in x.sccs[j];
      Descends(x, p[1..], j);
      var k: nat :| k <= j && k < |x.sccs| && p[|p| - 1] in x.sccs[k];
    }
  }

  lemma OneComponent(x: Sccs, i: nat, j: nat, b: nat)
    requires x.Valid() && i < |x.sccs| && j < |x.sccs| && b in x.sccs[i] && b in x.sccs[j]
    ensures i == j
  {
  }

  lemma Within(x: Sccs, i: nat, a: nat, b: nat)
    requires x.Valid() && i < |x.sccs| && a in x.sccs[i] && b in x.sccs[i]
    ensures Connected(x.f.g, a, b)
  {
  }

  /** A node is a loop exactly when its blocks lie on cycles. */
  lemma LoopExact(x: Sccs, nodes: seq<Node>, i: nat, b: nat)
    requires x.Valid() && AllSolved(x, nodes) && i < |nodes| && b in x.sccs[i]
    ensures nodes[i].isLoop <==> OnCycle(x.f.g, b)
  {
    assert Solved(x, nodes, i);
    if OnCycle(x.f.g, b) {
      var p :| PathFromTo(x.f.g, p, b, b) && |p| >= 2;
      TailPath(x.f.g, p);
      assert x.InUpTo(p[1], i);
      var j: nat :| j <= i && j < |x.sccs| && p[1] in x.sccs[j];
      Descends(x, p[1..], j);
      var k: nat :| k <= j && k < |x.sccs| && b in x.sccs[k];
      OneComponent(x, i, k, b);
      assert x.InnerEdge(i);
    }
    if x.InnerEdge(i) {
      var a: nat, c: nat :| a in x.sccs[i] && c in x.sccs[i] && Edge(x.f.g, a, c);
      Within(x, i, b, a);
      Within(x, i, c, b);
      JoinPaths(x.f.g, b, a, c, b);
    } else if |x.sccs[i]| > 1 {
      OtherBlock(x, i, b);
    }
  }

  /** Two blocks of a component are joined by an edge inside it. */
  lemma OtherBlock(x: Sccs, i: nat, b: nat)
    requires x.Valid() && i < |x.sccs| && b in x.sccs[i] && |x.sccs[i]| > 1
    ensures OnCycle(x.f.g, b)
  {
    var c := if x.sccs[i][0] == b then x.sccs[i][1] else x.sccs[i][0];
    assert c != b && c in x.sccs[i];
    Within(x, i, b, c);
    Within(x, i, c, b);
    var p :| PathFromTo(x.f.g, p, b, c);
    var q :| PathFromTo(x.f.g, q, c, b);
    TailPath(x.f.g, q);
    ConcatPath(x.f.g, p, q[1..]);
    assert PathFromTo(x.f.g, p + q[1..], b, b);
  }

  /** A block from which the function can return. */
  ghost predicate CanReturn(f: Body, b: nat) {
    exists p :: Path(f.g, p) && p[0] == b && p[|p| - 1] < |f.term| && Returning(f.term[p[|p| - 1]])
  }

  lemma {:induction false} ReturnPath(x: Sccs, nodes: seq<Node>, i: nat, p: seq<nat>)
    requires x.Valid() && AllSolved(x, nodes) && i < |nodes| && Path(x.f.g, p) && p[0] in x.sccs[i]
    requires p[|p| - 1] < |x.f.term| && Returning(x.f.term[p[|p| - 1]])
    ensures nodes[i].canReturn
    decreases |p|
  {
    assert Solved(x, nodes, i);
    if |p| > 1 {
      TailPath(x.f.g, p);
      assert x.InUpTo(p[1], i);
      var j: nat :| j <= i && j < |x.sccs| && p[1] in x.sccs[j];
      ReturnPath(x, nodes, j, p[1..]);
      if j != i {
        assert x.DagEdge(i, j);
      }
    } else {
      assert ReturnsHere(x, i);
    }
  }

  /** A node returns exactly when a returning block can be reached from its blocks. */
  lemma {:induction false} ReturnsExact(x: Sccs, nodes: seq<Node>, i: nat, b: nat)
    requires x.Valid() && AllSolved(x, nodes) && i < |nodes| && b in x.sccs[i]
    ensures nodes[i].canReturn <==> CanReturn(x.f, b)
    decreases i
  {
    assert Solved(x, nodes, i);
    if CanReturn(x.f, b) {
      var p :| Path(x.f.g, p) && p[0] == b && p[|p| - 1] < |x.f.term| && Returning(x.f.term[p[|p| - 1]]);
      ReturnPath(x, nodes, i, p);
    }
    if ReturnsHere(x, i) {
      var c: nat :| c in x.sccs[i] && c < |x.f.term| && Returning(x.f.term[c]);
      Within(x, i, b, c);
      var p :| PathFromTo(x.f.g, p, b, c);
      assert Path(x.f.g, p);
    } else if nodes[i].canReturn {
      var j: nat :| j in nodes[i].succs && j < i && nodes[j].canReturn;
      assert x.DagEdge(i, j);
      var a: nat, c: nat :| a in x.sccs[i] && c in x.sccs[j] && Edge(x.f.g, a, c);
      ReturnsExact(x, nodes, j, c);
      var p :| Path(x.f.g, p) && p[0] == c && p[|p| - 1] < |x.f.term| && Returning(x.f.term[p[|p| - 1]]);
      assert PathFromTo(x.f.g, p, c, p[|p| - 1]);
      Within(x, i, b, a);
      JoinPaths(x.f.g, b, a, c, p[|p| - 1]);
      var q :| PathFromTo(x.f.g, q, b, p[|p| - 1]);
      assert Path(x.f.g, q) && q[0] == b;
    }
  }

  // ---------------------------------------------------------------- longest paths

  ghost predicate DagPath(x: Sccs, p: seq<nat>) {
    && |p| > 0 && (forall k :: 0 <= k < |p| ==> p[k] < |x.sccs|)
    && forall k :: 0 <= k < |p| - 1 ==> x.DagEdge(p[k], p[k + 1])
  }

  /** The instructions along a path of components. */
  ghost function Weight(x: Sccs, p: seq<nat>): nat {
    if p == [] then 0 else (if p[0] < |x.sccs| then Total(x.f, x.sccs[p[0]]) else 0) + Weight(x, p[1..])
  }

  lemma {:induction false} LengthBounds(x: Sccs, nodes: seq<Node>, p: seq<nat>)
    requires x.Valid() && AllSolved(x, nodes) && DagPath(x, p)
    ensures Weight(x, p) <= nodes[p[0]].length
    decreases |p|
  {
    assert Solved(x, nodes, p[0]);
    if |p| > 1 {
      assert DagPath(x, p[1..]) by {
        forall k | 0 <= k < |p[1..]| - 1
          ensures x.DagEdge(p[1..][k], p[1..][k + 1])
        {
          assert x.DagEdge(p[k + 1], p[k + 2]);
        }
      }
      LengthBounds(x, nodes, p[1..]);
      assert x.DagEdge(p[0], p[1]);
    } else {
      assert p[1..] == [];
    }
  }

  lemma {:induction false} LengthReached(x: Sccs, nodes: seq<Node>, i: nat) returns (p: seq<nat>)
    requires x.Valid() && AllSolved(x, nodes) && i < |nodes|
    ensures DagPath(x, p) && p[0] == i && Weight(x, p) == nodes[i].length
    decreases i
  {
    assert Solved(x, nodes, i);
    if nodes[i].length == Total(x.f, x.sccs[i]) {
      p := [i];
      assert p[1..] == [];
    } else {
      var j: nat :| j in nodes[i].succs && j < i && nodes[i].length == nodes[j].length + Total(x.f, x.sccs[i]);
      var q := LengthReached(x, nodes, j);
      p := [i] + q;
      assert p[1..] == q;
      assert x.DagEdge(i, j);
      forall k | 0 <= k < |p| - 1
        ensures x.DagEdge(p[k], p[k + 1])
      {
        if k > 0 {
          assert x.DagEdge(q[k - 1], q[k]);
        }
      }
    }
  }

  /** The length of a node is the greatest weight of a path of components that starts there. */
  lemma LengthExact(x: Sccs, nodes: seq<Node>, i: nat)
    requires x.Valid() && AllSolved(x, nodes) && i < |nodes|
    ensures forall p :: DagPath(x, p) && p[0] == i ==> Weight(x, p) <= nodes[i].length
    ensures exists p :: DagPath(x, p) && p[0] == i && Weight(x, p) == nodes[i].length
  {
    forall p | DagPath(x, p) && p[0] == i
      ensures Weight(x, p) <= nodes[i].length
    {
      LengthBounds(x, nodes, p);
    }
    var p := LengthReached(x, nodes, i);
  }
}
