/** The constructor of the component graph (core/dag.cpp): nodes are added in reverse
    topological order and linked to the nodes already there. */
module DagBuild {
  import opened Cfg
  import opened Dag

  // ---------------------------------------------------------------- sorting

  /** Inserts j in front of the first node it precedes. */
  function Insert(nodes: seq<Node>, j: nat, s: seq<nat>): (r: seq<nat>)
    requires j < |nodes| && (forall k :: 0 <= k < |s| ==> s[k] < |nodes|) && OrderedBy(nodes, s) && Distinct(s)
    requires j !in s
    ensures (forall k :: 0 <= k < |r| ==> r[k] < |nodes|) && OrderedBy(nodes, r) && Distinct(r)
    ensures forall k: nat :: k in r <==> k in s || k == j
  {
    if s == [] then [j]
    else if Less(nodes[j], nodes[s[0]]) then
      InFront(nodes, j, s);
      [j] + s
    else
      TailOrdered(nodes, s);
      var r := Insert(nodes, j, s[1..]);
      Behind(nodes, j, s, r);
      [s[0]] + r
  }

  ghost predicate OrderedBy(nodes: seq<Node>, s: seq<nat>)
    requires forall k :: 0 <= k < |s| ==> s[k] < |nodes|
  {
    forall a, b :: 0 <= a < b < |s| ==> !Less(nodes[s[b]], nodes[s[a]])
  }

  lemma TailOrdered(nodes: seq<Node>, s: seq<nat>)
    requires s != [] && (forall k :: 0 <= k < |s| ==> s[k] < |nodes|) && OrderedBy(nodes, s) && Distinct(s)
    ensures (forall k :: 0 <= k < |s[1..]| ==> s[1..][k] < |nodes|) && OrderedBy(nodes, s[1..]) && Distinct(s[1..])
    ensures s[0] !in s[1..] && forall k: nat :: k in s <==> k == s[0] || k in s[1..]
  {
    assert s == [s[0]] + s[1..];
  }

  lemma InFront(nodes: seq<Node>, j: nat, s: seq<nat>)
    requires j < |nodes| && s != [] && (forall k :: 0 <= k < |s| ==> s[k] < |nodes|) && OrderedBy(nodes, s)
    requires Distinct(s) && j !in s
    requires Less(nodes[j], nodes[s[0]])
    ensures forall k :: 0 <= k < |[j] + s| ==> ([j] + s)[k] < |nodes|
    ensures OrderedBy(nodes, [j] + s) && Distinct([j] + s)
  {
    var r := [j] + s;
    forall b | 0 < b < |r|
      ensures !Less(nodes[r[b]], nodes[j])
    {
      StrictWeakOrder(nodes[r[b]], nodes[j], nodes[s[0]]);
    }
  }

  lemma Behind(nodes: seq<Node>, j: nat, s: seq<nat>, r: seq<nat>)
    requires j < |nodes| && s != [] && (forall k :: 0 <= k < |s| ==> s[k] < |nodes|) && OrderedBy(nodes, s)
    requires Distinct(s) && j !in s
    requires !Less(nodes[j], nodes[s[0]])
    requires (forall k :: 0 <= k < |r| ==> r[k] < |nodes|) && OrderedBy(nodes, r) && Distinct(r)
    requires forall k: nat :: k in r <==> k in s[1..] || k == j
    ensures forall k :: 0 <= k < |[s[0]] + r| ==> ([s[0]] + r)[k] < |nodes|
    ensures OrderedBy(nodes, [s[0]] + r) && Distinct([s[0]] + r)
    ensures forall k: nat :: k in [s[0]] + r <==> k in s || k == j
  {
    TailOrdered(nodes, s);
    var t := [s[0]] + r;
    forall b | 0 < b < |t|
      ensures !Less(nodes[t[b]], nodes[s[0]]) && t[b] != s[0]
    {
      assert t[b] in r;
      if t[b] != j {
        var k :| 0 <= k < |s[1..]| && s[1..][k] == t[b];
        assert s[k + 1] == t[b];
      }
    }
  }

  function SortBy(nodes: seq<Node>, s: seq<nat>): (r: seq<nat>)
    requires (forall k :: 0 <= k < |s| ==> s[k] < |nodes|) && Distinct(s)
    ensures (forall k :: 0 <= k < |r| ==> r[k] < |nodes|) && OrderedBy(nodes, r) && Distinct(r)
    ensures forall k: nat :: k in r <==> k in s
  {
    if s == [] then [] else
      assert s == [s[0]] + s[1..];
      Insert(nodes, s[0], SortBy(nodes, s[1..]))
  }

  // ---------------------------------------------------------------- linking

  /** Appends an element that is not there yet. */
  function InsertUnique(s: seq<nat>, x: nat): (r: seq<nat>)
    requires Distinct(s)
    ensures Distinct(r) && forall k: nat :: k in r <==> k in s || k == x
  {
    if x in s then s else s + [x]
  }

  function Max(a: nat, b: nat): nat {
    if a > b then a else b
  }

  /** The map from blocks to nodes covers the first n components. */
  ghost predicate MapsTo(x: Sccs, m: map<nat, nat>, n: nat) {
    && n <= |x.sccs|
    && (forall b: nat :: b in m ==> m[b] < n && b in x.sccs[m[b]])
    && (forall j, b: nat :: 0 <= j < n && b in x.sccs[j] ==> b in m && m[b] == j)
  }

  /** Nodes below n say what they should, and the successors of all nodes are mirrored. */
  ghost predicate Built(x: Sccs, nodes: seq<Node>, n: nat) {
    && n <= |nodes| && n <= |x.sccs|
    && (forall i: nat :: i < n ==> Solved(x, nodes, i) && SuccsSorted(nodes, i))
  }

  /** Nodes agree on all but their predecessors. */
  ghost predicate OnlyPreds(nodes: seq<Node>, nodes': seq<Node>, n: nat) {
    && n <= |nodes| && n <= |nodes'|
    && forall i: nat :: i < n ==> nodes'[i] == nodes[i].(preds := nodes'[i].preds)
  }

  lemma SolvedStays(x: Sccs, nodes: seq<Node>, nodes': seq<Node>, i: nat, n: nat)
    requires i < n <= |x.sccs| && OnlyPreds(nodes, nodes', n) && Solved(x, nodes, i)
    ensures Solved(x, nodes', i)
  {
    hide Total, ReturnsHere, TrapsHere;
    assert nodes'[i] == nodes[i].(preds := nodes'[i].preds);
    forall j: nat | j < i
      ensures nodes'[j].canReturn == nodes[j].canReturn && nodes'[j].length == nodes[j].length
    {
    }
  }

  lemma SortedStays(x: Sccs, nodes: seq<Node>, nodes': seq<Node>, i: nat, n: nat)
    requires i < n <= |x.sccs| && OnlyPreds(nodes, nodes', n) && Solved(x, nodes, i) && SuccsSorted(nodes, i)
    ensures SuccsSorted(nodes', i)
  {
    hide Total, ReturnsHere, TrapsHere;
    assert nodes'[i] == nodes[i].(preds := nodes'[i].preds);
    forall a | 0 <= a < |nodes'[i].succs|
      ensures nodes'[i].succs[a] < i
    {
      assert nodes[i].succs[a] in nodes[i].succs;
    }
  }

  lemma BuiltStays(x: Sccs, nodes: seq<Node>, nodes': seq<Node>, n: nat)
    requires Built(x, nodes, n) && OnlyPreds(nodes, nodes', n)
    ensures Built(x, nodes', n)
  {
    hide Solved, SuccsSorted;
    forall i: nat | i < n
      ensures Solved(x, nodes', i) && SuccsSorted(nodes', i)
    {
      SolvedStays(x, nodes, nodes', i, n);
      SortedStays(x, nodes, nodes', i, n);
    }
  }

  // ---------------------------------------------------------------- one component

  /** What the node under construction says when edges to the nodes in seen were followed. */
  ghost predicate Following(x: Sccs, nodes: seq<Node>, i: nat, node: Node, seen: set<nat>)
    requires i < |x.sccs| && i <= |nodes|
  {
    && (forall j: nat :: j in node.succs <==> j in seen && j != i)
    && (forall j: nat :: j in seen ==> j <= i)
    && Distinct(node.succs)
    && (node.isLoop <==> |x.sccs[i]| > 1 || i in seen)
    && node.length >= Total(x.f, x.sccs[i])
    && (forall j: nat :: j in node.succs && j < i ==> node.length >= nodes[j].length + Total(x.f, x.sccs[i]))
    && (node.length == Total(x.f, x.sccs[i]) ||
        exists j: nat :: j in node.succs && j < i && node.length == nodes[j].length + Total(x.f, x.sccs[i]))
  }

  /** The node returns, or a successor does. */
  ghost predicate ReturnsSoFar(nodes: seq<Node>, i: nat, node: Node, here: bool)
    requires i <= |nodes|
  {
    node.canReturn <==> here || exists j: nat :: j in node.succs && j < i && nodes[j].canReturn
  }

  /** The predecessor lists know about the successors found so far. */
  ghost predicate Known(nodes: seq<Node>, i: nat, node: Node)
    requires i <= |nodes|
  {
    && (forall j: nat :: j < i ==> Distinct(nodes[j].preds))
    && (forall j: nat :: j < i ==> (i in nodes[j].preds <==> j in node.succs))
  }

  lemma FollowMore(x: Sccs, nodes: seq<Node>, nodes': seq<Node>, i: nat, node: Node, seen: set<nat>, j: nat, here: bool)
    requires i < |x.sccs| && i <= |nodes| && OnlyPreds(nodes, nodes', i) && j < i
    requires Following(x, nodes, i, node, seen) && ReturnsSoFar(nodes, i, node, here)
    ensures var node' := node.(succs := InsertUnique(node.succs, j),
        length := Max(node.length, nodes[j].length + Total(x.f, x.sccs[i])),
        canReturn := node.canReturn || nodes[j].canReturn);
      Following(x, nodes', i, node', seen + {j}) && ReturnsSoFar(nodes', i, node', here)
  {
    hide Total;
    var size := Total(x.f, x.sccs[i]);
    forall k: nat | k < i
      ensures nodes'[k].length == nodes[k].length && nodes'[k].canReturn == nodes[k].canReturn
    {
    }
    var succs := InsertUnique(node.succs, j);
    if node.length >= nodes[j].length + size && node.length != size {
      var k: nat :| k in node.succs && k < i && node.length == nodes[k].length + size;
      assert k in succs;
    }
    if node.canReturn && !here {
      var k: nat :| k in node.succs && k < i && nodes[k].canReturn;
      assert k in succs;
    }
    assert j in succs;
  }

  lemma FollowInner(x: Sccs, nodes: seq<Node>, i: nat, node: Node, seen: set<nat>, here: bool)
    requires i < |x.sccs| && i <= |nodes| && Following(x, nodes, i, node, seen) && ReturnsSoFar(nodes, i, node, here)
    ensures Following(x, nodes, i, node.(isLoop := true), seen + {i})
    ensures ReturnsSoFar(nodes, i, node.(isLoop := true), here)
  {
    hide Total;
  }

  /** The nodes of some successor blocks. */
  ghost function NodesOf(m: map<nat, nat>, succs: seq<nat>): set<nat> {
    set k | 0 <= k < |succs| && succs[k] in m :: m[succs[k]]
  }

  /** The nodes the first n blocks of a component lead to. */
  ghost function SeenFrom(m: map<nat, nat>, g: Graph, scc: seq<nat>, n: nat): set<nat>
    requires n <= |scc|
  {
    if n == 0 then {} else
      SeenFrom(m, g, scc, n - 1) + if scc[n - 1] < |g.succs| then NodesOf(m, g.succs[scc[n - 1]]) else {}
  }

  lemma {:induction false} SeenFromExact(m: map<nat, nat>, g: Graph, scc: seq<nat>, n: nat, j: nat)
    requires n <= |scc|
    ensures j in SeenFrom(m, g, scc, n) <==> exists k, b: nat :: 0 <= k < n && Edge(g, scc[k], b) && b in m && m[b] == j
  {
    if n > 0 {
      SeenFromExact(m, g, scc, n - 1, j);
      if j in SeenFrom(m, g, scc, n) && j !in SeenFrom(m, g, scc, n - 1) {
        var succs := g.succs[scc[n - 1]];
        var k :| 0 <= k < |succs| && succs[k] in m && m[succs[k]] == j;
        assert Edge(g, scc[n - 1], succs[k]);
      }
      if k, b: nat :| 0 <= k < n && Edge(g, scc[k], b) && b in m && m[b] == j {
        if k == n - 1 {
          var l :| 0 <= l < |g.succs[scc[k]]| && g.succs[scc[k]][l] == b;
        }
      }
    }
  }

  lemma SeenExact(x: Sccs, m: map<nat, nat>, i: nat)
    requires x.Valid() && i < |x.sccs| && MapsTo(x, m, i + 1)
    ensures forall j: nat :: j != i ==> (j in SeenFrom(m, x.f.g, x.sccs[i], |x.sccs[i]|) <==> x.DagEdge(i, j))
    ensures i in SeenFrom(m, x.f.g, x.sccs[i], |x.sccs[i]|) <==> x.InnerEdge(i)
    ensures !x.DagEdge(i, i)
  {
    var scc := x.sccs[i];
    forall j: nat
      ensures j in SeenFrom(m, x.f.g, scc, |scc|) <==>
        j < |x.sccs| && exists a: nat, b: nat :: a in scc && b in x.sccs[j] && Edge(x.f.g, a, b)
    {
      SeenFromExact(m, x.f.g, scc, |scc|, j);
      if k, b: nat :| 0 <= k < |scc| && Edge(x.f.g, scc[k], b) && b in m && m[b] == j {
        assert scc[k] in scc;
      }
      if j < |x.sccs| && exists a: nat, b: nat :: a in scc && b in x.sccs[j] && Edge(x.f.g, a, b) {
        var a: nat, b: nat :| a in scc && b in x.sccs[j] && Edge(x.f.g, a, b);
        var k :| 0 <= k < |scc| && scc[k] == a;
        SuccInMap(x, m, i, j, a, b);
      }
    }
  }

  lemma SuccInMap(x: Sccs, m: map<nat, nat>, i: nat, j: nat, a: nat, b: nat)
    requires x.Valid() && i < |x.sccs| && j < |x.sccs| && MapsTo(x, m, i + 1)
    requires a in x.sccs[i] && b in x.sccs[j] && Edge(x.f.g, a, b)
    ensures j <= i && b in m && m[b] == j
  {
    assert x.InUpTo(b, i);
    var l: nat :| l <= i && l < |x.sccs| && b in x.sccs[l];
    OneComponent(x, j, l, b);
  }

  // ---------------------------------------------------------------- the constructor

  ghost predicate OldPreds(nodes: seq<Node>) {
    forall j: nat, k: nat :: j < |nodes| && k in nodes[j].preds ==> k < |nodes|
  }

  /** The first n nodes are complete. */
  ghost predicate Complete(x: Sccs, nodes: seq<Node>, m: map<nat, nat>, n: nat) {
    |nodes| == n && Built(x, nodes, n) && Mirrored(nodes) && OldPreds(nodes) && MapsTo(x, m, n)
  }

  /** Links old nodes to the one under construction and to no other new one. */
  ghost predicate Linking(x: Sccs, nodes0: seq<Node>, nodes: seq<Node>, i: nat, node: Node, seen: set<nat>, here: bool)
    requires i < |x.sccs|
  {
    && |nodes0| == |nodes| == i && OnlyPreds(nodes0, nodes, i)
    && Following(x, nodes, i, node, seen) && ReturnsSoFar(nodes, i, node, here) && Known(nodes, i, node)
    && (forall j: nat, k: nat :: j < i && k != i ==> (k in nodes[j].preds <==> k in nodes0[j].preds))
    && node.preds == []
  }

  /** Fields that following edges does not change. */
  ghost predicate SameTerms(node: Node, node': Node) {
    node'.blocks == node.blocks && node'.isReturn == node.isReturn && node'.isTrap == node.isTrap &&
      node'.traps == node.traps
  }

  lemma LinkMore(x: Sccs, nodes0: seq<Node>, nodes: seq<Node>, i: nat, node: Node, seen: set<nat>, here: bool, j: nat)
    requires i < |x.sccs| && Linking(x, nodes0, nodes, i, node, seen, here) && j < i
    ensures Distinct(node.succs) && Distinct(nodes[j].preds)
    ensures var node' := node.(succs := InsertUnique(node.succs, j),
        length := Max(node.length, nodes[j].length + Total(x.f, x.sccs[i])),
        canReturn := node.canReturn || nodes[j].canReturn);
      var nodes' := nodes[j := nodes[j].(preds := InsertUnique(nodes[j].preds, i))];
      Linking(x, nodes0, nodes', i, node', seen + {j}, here)
  {
    hide Total, Following, ReturnsSoFar;
    DistinctSuccs(x, nodes, i, node, seen);
    var nodes' := nodes[j := nodes[j].(preds := InsertUnique(nodes[j].preds, i))];
    FollowMore(x, nodes, nodes', i, node, seen, j, here);
  }

  lemma DistinctSuccs(x: Sccs, nodes: seq<Node>, i: nat, node: Node, seen: set<nat>)
    requires i < |x.sccs| && i <= |nodes| && Following(x, nodes, i, node, seen)
    ensures Distinct(node.succs)
  {
  }

  lemma LinkInner(x: Sccs, nodes0: seq<Node>, nodes: seq<Node>, i: nat, node: Node, seen: set<nat>, here: bool)
    requires i < |x.sccs| && Linking(x, nodes0, nodes, i, node, seen, here)
    ensures Linking(x, nodes0, nodes, i, node.(isLoop := true), seen + {i}, here)
  {
    FollowInner(x, nodes, i, node, seen, here);
  }

  /** A terminator that returns or traps. */
  lemma LinkTerm(x: Sccs, nodes0: seq<Node>, nodes: seq<Node>, i: nat, node: Node, seen: set<nat>, here: bool)
    requires i < |x.sccs| && Linking(x, nodes0, nodes, i, node, seen, here)
    ensures Linking(x, nodes0, nodes, i, node.(isReturn := true, canReturn := true), seen, true)
    ensures Linking(x, nodes0, nodes, i, node.(isTrap := true, traps := true), seen, here)
  {
    hide Total;
  }

  /** One of the first n blocks returns. */
  ghost predicate ReturnsIn(f: Body, scc: seq<nat>, n: nat)
    requires n <= |scc|
  {
    exists l :: 0 <= l < n && scc[l] < |f.term| && Returning(f.term[scc[l]])
  }

  /** One of the first n blocks traps. */
  ghost predicate TrapsIn(f: Body, scc: seq<nat>, n: nat)
    requires n <= |scc|
  {
    exists l :: 0 <= l < n && scc[l] < |f.term| && f.term[scc[l]].Trap?
  }

  lemma NoTerms(f: Body, scc: seq<nat>)
    ensures !ReturnsIn(f, scc, 0) && !TrapsIn(f, scc, 0)
  {
  }

  lemma TermNext(f: Body, scc: seq<nat>, n: nat)
    requires n < |scc| && scc[n] < |f.term|
    ensures ReturnsIn(f, scc, n + 1) <==> ReturnsIn(f, scc, n) || Returning(f.term[scc[n]])
    ensures TrapsIn(f, scc, n + 1) <==> TrapsIn(f, scc, n) || f.term[scc[n]].Trap?
  {
  }

  class DAGFunc {
    ghost const x: Sccs
    const f: Body
    const sccs: seq<seq<nat>>
    var nodes: seq<Node>
    var blocks: map<nat, nat>

    constructor (f: Body, sccs: seq<seq<nat>>)
      requires Sccs(f, sccs).Valid()
      ensures x == Sccs(f, sccs) && Complete(x, nodes, blocks, |sccs|)
      ensures forall i: nat :: i < |nodes| ==> SuccsSorted(nodes, i)
      ensures AllSolved(x, nodes) && Mirrored(nodes)
    {
      x := Sccs(f, sccs);
      this.f, this.sccs := f, sccs;
      nodes, blocks := [], map[];
      new;
      for i := 0 to |sccs|
        invariant Complete(x, nodes, blocks, i)
        invariant x == Sccs(f, sccs) && this.f == f && this.sccs == sccs
      {
        AddNode(i);
      }
    }

    ghost predicate Shape() {
      x == Sccs(f, sccs) && x.Valid()
    }

    /** Appends the node of a component. */
    method AddNode(i: nat)
      requires Shape() && i < |sccs| && Complete(x, nodes, blocks, i)
      modifies this
      ensures Complete(x, nodes, blocks, i + 1)
    {
      hide Built, Linking, MapsTo, ReturnsIn, TrapsIn, Mirrored, OldPreds, Total;
      ghost var nodes0 := nodes;
      var scc := sccs[i];
      var size := Collect(i);
      var node := Node(set b | b in scc, [], [], size, |scc| > 1, false, false, false, false);
      StartLinking(x, nodes, i, node);
      ghost var ret, trap := false, false;
      NoTerms(f, scc);
      for k := 0 to |scc|
        invariant Linking(x, nodes0, nodes, i, node, SeenFrom(blocks, f.g, scc, k), ret) && MapsTo(x, blocks, i + 1)
        invariant node.blocks == (set b | b in scc) && node.isReturn == ret && node.isTrap == trap && node.traps == trap
        invariant (ret <==> ReturnsIn(f, scc, k)) && (trap <==> TrapsIn(f, scc, k))
      {
        var block := scc[k];
        InRangeBlock(x, i, k);
        TermNext(f, scc, k);
        match f.term[block] {
          case Return | TailCall =>
            LinkTerm(x, nodes0, nodes, i, node, SeenFrom(blocks, f.g, scc, k), ret);
            node := node.(isReturn := true, canReturn := true);
            ret := true;
          case Trap =>
            LinkTerm(x, nodes0, nodes, i, node, SeenFrom(blocks, f.g, scc, k), ret);
            node := node.(isTrap := true, traps := true);
            trap := true;
          case Goto | Raise =>
        }
        node := Connect(nodes0, i, block, size, node, SeenFrom(blocks, f.g, scc, k), ret);
      }
      FinishNode(x, nodes0, nodes, blocks, i, node, ret, trap);
      nodes := nodes + [node.(succs := SortBy(nodes, node.succs))];
    }

    /** Records the blocks of a component and counts their instructions. */
    method Collect(i: nat) returns (size: nat)
      requires Shape() && i < |sccs| && MapsTo(x, blocks, i)
      modifies this`blocks
      ensures size == Total(f, sccs[i]) && MapsTo(x, blocks, i + 1)
    {
      var scc := sccs[i];
      size := 0;
      ghost var before := blocks;
      assert scc[..0] == [];
      for k := 0 to |scc|
        invariant size == Total(f, scc[..k])
        invariant forall b: nat :: b in blocks <==> b in before || b in scc[..k]
        invariant forall b: nat :: b in blocks ==> blocks[b] == if b in scc[..k] then i else before[b]
      {
        InRangeBlock(x, i, k);
        assert scc[..k + 1][..k] == scc[..k];
        blocks := blocks[scc[k] := i];
        size := size + f.size[scc[k]];
      }
      assert scc[..|scc|] == scc;
      Collected(x, before, blocks, i);
    }

    /** Follows the edges of one block. */
    method Connect(ghost nodes0: seq<Node>, i: nat, block: nat, size: nat, node0: Node, ghost seen: set<nat>,
                   ghost here: bool)
        returns (node: Node)
      requires Shape() && i < |sccs| && block in sccs[i] && block < |f.g.succs| && size == Total(f, sccs[i])
      requires Linking(x, nodes0, nodes, i, node0, seen, here) && MapsTo(x, blocks, i + 1)
      modifies this`nodes
      ensures Linking(x, nodes0, nodes, i, node, seen + NodesOf(blocks, f.g.succs[block]), here)
      ensures SameTerms(node0, node)
    {
      hide Linking, Total, MapsTo, NodesOf, InsertUnique, Max;
      node := node0;
      var succs := f.g.succs[block];
      NoNodes(blocks, succs);
      assert seen + NodesOf(blocks, succs[..0]) == seen;
      for k := 0 to |succs|
        invariant Linking(x, nodes0, nodes, i, node, seen + NodesOf(blocks, succs[..k]), here) && SameTerms(node0, node)
      {
        SuccMapped(x, blocks, i, block, k);
        var succNode := blocks[succs[k]];
        ghost var now := seen + NodesOf(blocks, succs[..k]);
        NodesOfNext(blocks, succs, k);
        assert now + {succNode} == seen + NodesOf(blocks, succs[..k + 1]);
        if succNode == i {
          LinkInner(x, nodes0, nodes, i, node, now, here);
          node := node.(isLoop := true);
        } else {
          LinkMore(x, nodes0, nodes, i, node, now, here, succNode);
          LinkSize(x, nodes0, nodes, i, node, now, here);
          var succ := nodes[succNode];
          node := node.(succs := InsertUnique(node.succs, succNode),
            length := Max(node.length, succ.length + size), canReturn := node.canReturn || succ.canReturn);
          nodes := nodes[succNode := succ.(preds := InsertUnique(succ.preds, i))];
        }
      }
      assert succs[..|succs|] == succs;
    }
  }

  lemma LinkSize(x: Sccs, nodes0: seq<Node>, nodes: seq<Node>, i: nat, node: Node, seen: set<nat>, here: bool)
    requires i < |x.sccs| && Linking(x, nodes0, nodes, i, node, seen, here)
    ensures |nodes| == i
  {
  }

  lemma StartLinking(x: Sccs, nodes: seq<Node>, i: nat, node: Node)
    requires i < |x.sccs| && |nodes| == i && Mirrored(nodes) && OldPreds(nodes)
    requires node.succs == [] && node.preds == [] && node.length == Total(x.f, x.sccs[i]) && !node.canReturn
    requires node.isLoop <==> |x.sccs[i]| > 1
    ensures Linking(x, nodes, nodes, i, node, {}, false)
  {
    hide Total;
  }

  lemma InRangeBlock(x: Sccs, i: nat, k: nat)
    requires x.Valid() && i < |x.sccs| && k < |x.sccs[i]|
    ensures x.sccs[i][k] < |x.f.g.succs| == |x.f.term| == |x.f.size| && x.sccs[i][k] in x.sccs[i]
  {
  }

  lemma Collected(x: Sccs, before: map<nat, nat>, m: map<nat, nat>, i: nat)
    requires x.Valid() && i < |x.sccs| && MapsTo(x, before, i)
    requires forall b: nat :: b in m <==> b in before || b in x.sccs[i]
    requires forall b: nat :: b in m ==> m[b] == if b in x.sccs[i] then i else before[b]
    ensures MapsTo(x, m, i + 1)
  {
    forall j, b: nat | 0 <= j < i + 1 && b in x.sccs[j]
      ensures b in m && m[b] == j
    {
      if b in x.sccs[i] {
        OneComponent(x, j, i, b);
      }
    }
  }

  lemma SuccMapped(x: Sccs, m: map<nat, nat>, i: nat, block: nat, k: nat)
    requires x.Valid() && i < |x.sccs| && MapsTo(x, m, i + 1) && block in x.sccs[i]
    requires block < |x.f.g.succs| && k < |x.f.g.succs[block]|
    ensures x.f.g.succs[block][k] in m && m[x.f.g.succs[block][k]] <= i
  {
    var b := x.f.g.succs[block][k];
    assert Edge(x.f.g, block, b);
    assert x.InUpTo(b, i);
    var j: nat :| j <= i && j < |x.sccs| && b in x.sccs[j];
  }

  lemma NoNodes(m: map<nat, nat>, succs: seq<nat>)
    ensures NodesOf(m, succs[..0]) == {}
  {
  }

  lemma NodesOfNext(m: map<nat, nat>, succs: seq<nat>, k: nat)
    requires k < |succs| && succs[k] in m
    ensures NodesOf(m, succs[..k + 1]) == NodesOf(m, succs[..k]) + {m[succs[k]]}
  {
    assert succs[..k + 1] == succs[..k] + [succs[k]];
    forall j | j in NodesOf(m, succs[..k]) + {m[succs[k]]}
      ensures j in NodesOf(m, succs[..k + 1])
    {
      if j in NodesOf(m, succs[..k]) {
        var l :| 0 <= l < |succs[..k]| && succs[..k][l] in m && m[succs[..k][l]] == j;
        assert succs[..k + 1][l] == succs[..k][l];
      } else {
        assert succs[..k + 1][k] == succs[k];
      }
    }
  }

  /** The finished node is solved, sorted and mirrored. */
  lemma FinishNode(x: Sccs, nodes0: seq<Node>, nodes: seq<Node>, m: map<nat, nat>, i: nat, node: Node, ret: bool,
                   trap: bool)
    requires x.Valid() && i < |x.sccs| && |nodes0| == i && Built(x, nodes0, i) && Mirrored(nodes0) && OldPreds(nodes0)
    requires Linking(x, nodes0, nodes, i, node, SeenFrom(m, x.f.g, x.sccs[i], |x.sccs[i]|), ret) && MapsTo(x, m, i + 1)
    requires node.blocks == (set b | b in x.sccs[i]) && node.isReturn == ret && node.isTrap == trap
    requires node.traps == trap
    requires (ret <==> ReturnsIn(x.f, x.sccs[i], |x.sccs[i]|)) && (trap <==> TrapsIn(x.f, x.sccs[i], |x.sccs[i]|))
    ensures (forall k :: 0 <= k < |node.succs| ==> node.succs[k] < |nodes|) && Distinct(node.succs)
    ensures Complete(x, nodes + [node.(succs := SortBy(nodes, node.succs))], m, i + 1)
  {
    hide Built, Total, MapsTo, Solved, SuccsSorted, OrderedBy;
    SeenExact(x, m, i);
    SuccsBelow(x, nodes0, nodes, m, i, node, ret);
    var node' := node.(succs := SortBy(nodes, node.succs));
    var all := nodes + [node'];
    BuiltStays(x, nodes0, all, i);
    LastSolved(x, nodes0, nodes, m, i, node, ret, trap);
    LastSorted(nodes, node', i);
    BuiltMore(x, all, i);
    StillMirrored(x, nodes0, nodes, m, i, node, ret, node');
  }

  lemma BuiltMore(x: Sccs, nodes: seq<Node>, i: nat)
    requires i < |x.sccs| && i < |nodes| && Built(x, nodes, i) && Solved(x, nodes, i) && SuccsSorted(nodes, i)
    ensures Built(x, nodes, i + 1)
  {
  }

  lemma SuccsBelow(x: Sccs, nodes0: seq<Node>, nodes: seq<Node>, m: map<nat, nat>, i: nat, node: Node, ret: bool)
    requires i < |x.sccs| && Linking(x, nodes0, nodes, i, node, SeenFrom(m, x.f.g, x.sccs[i], |x.sccs[i]|), ret)
    ensures (forall k :: 0 <= k < |node.succs| ==> node.succs[k] < |nodes|) && Distinct(node.succs)
  {
    forall k | 0 <= k < |node.succs|
      ensures node.succs[k] < |nodes|
    {
      assert node.succs[k] in node.succs;
    }
  }

  lemma LastSolved(x: Sccs, nodes0: seq<Node>, nodes: seq<Node>, m: map<nat, nat>, i: nat, node: Node, ret: bool,
                   trap: bool)
    requires x.Valid() && i < |x.sccs| && MapsTo(x, m, i + 1)
    requires Linking(x, nodes0, nodes, i, node, SeenFrom(m, x.f.g, x.sccs[i], |x.sccs[i]|), ret)
    requires node.blocks == (set b | b in x.sccs[i]) && node.isReturn == ret && node.isTrap == trap
    requires node.traps == trap
    requires (ret <==> ReturnsIn(x.f, x.sccs[i], |x.sccs[i]|)) && (trap <==> TrapsIn(x.f, x.sccs[i], |x.sccs[i]|))
    requires (forall k :: 0 <= k < |node.succs| ==> node.succs[k] < |nodes|) && Distinct(node.succs)
    ensures Solved(x, nodes + [node.(succs := SortBy(nodes, node.succs))], i)
  {
    hide Total, MapsTo, ReturnsIn, TrapsIn, ReturnsHere, TrapsHere, SeenFrom, SortBy, Known, OnlyPreds, Sccs.Valid,
      Sccs.DagEdge, Sccs.InnerEdge;
    SeenExact(x, m, i);
    TermsHere(x, i);
    var all := nodes + [node.(succs := SortBy(nodes, node.succs))];
    assert forall j: nat :: j < i ==> all[j] == nodes[j];
    LastLength(x, nodes, all, i, node, SeenFrom(m, x.f.g, x.sccs[i], |x.sccs[i]|));
    LastReturns(nodes, all, i, node, ret);
  }

  lemma TermsHere(x: Sccs, i: nat)
    requires i < |x.sccs|
    ensures ReturnsIn(x.f, x.sccs[i], |x.sccs[i]|) <==> ReturnsHere(x, i)
    ensures TrapsIn(x.f, x.sccs[i], |x.sccs[i]|) <==> TrapsHere(x, i)
  {
  }

  lemma LastLength(x: Sccs, nodes: seq<Node>, all: seq<Node>, i: nat, node: Node, seen: set<nat>)
    requires i < |x.sccs| && |nodes| == i && |all| == i + 1 && Following(x, nodes, i, node, seen)
    requires forall j: nat :: j < i ==> all[j] == nodes[j]
    requires all[i].length == node.length && forall j: nat :: j in all[i].succs <==> j in node.succs
    ensures var size := Total(x.f, x.sccs[i]);
      && (forall j: nat :: j in all[i].succs && j < i ==> all[i].length >= all[j].length + size)
      && (all[i].length == size || exists j: nat :: j in all[i].succs && j < i && all[i].length == all[j].length + size)
  {
    hide Total;
    var size := Total(x.f, x.sccs[i]);
    if node.length != size {
      var j: nat :| j in node.succs && j < i && node.length == nodes[j].length + size;
      assert j in all[i].succs && all[j] == nodes[j];
    }
  }

  lemma LastReturns(nodes: seq<Node>, all: seq<Node>, i: nat, node: Node, ret: bool)
    requires |nodes| == i && |all| == i + 1 && ReturnsSoFar(nodes, i, node, ret)
    requires forall j: nat :: j < i ==> all[j] == nodes[j]
    requires all[i].canReturn == node.canReturn && forall j: nat :: j in all[i].succs <==> j in node.succs
    ensures all[i].canReturn <==> ret || exists j: nat :: j in all[i].succs && j < i && all[j].canReturn
  {
  }

  lemma LastSorted(nodes: seq<Node>, node: Node, i: nat)
    requires i == |nodes| && (forall k :: 0 <= k < |node.succs| ==> node.succs[k] < |nodes|)
    requires OrderedBy(nodes, node.succs)
    ensures SuccsSorted(nodes + [node], i)
  {
  }

  lemma StillMirrored(x: Sccs, nodes0: seq<Node>, nodes: seq<Node>, m: map<nat, nat>, i: nat, node: Node, ret: bool,
                      node': Node)
    requires i < |x.sccs| && |nodes0| == i && Built(x, nodes0, i) && Mirrored(nodes0) && OldPreds(nodes0)
    requires Linking(x, nodes0, nodes, i, node, SeenFrom(m, x.f.g, x.sccs[i], |x.sccs[i]|), ret)
    requires node'.preds == node.preds && forall j: nat :: j in node'.succs <==> j in node.succs
    ensures Mirrored(nodes + [node']) && OldPreds(nodes + [node'])
  {
    hide Total, Solved, SuccsSorted;
    var all := nodes + [node'];
    forall a: nat, b: nat | a < |all| && b < |all|
      ensures (a in all[b].preds <==> b in all[a].succs) && Distinct(all[b].preds)
    {
      if a < i && b < i {
        assert a in nodes0[b].preds <==> b in nodes0[a].succs;
      } else if a < i {
        SuccsSmaller(x, nodes0, a, i);
      }
    }
  }

  lemma SuccsSmaller(x: Sccs, nodes: seq<Node>, a: nat, i: nat)
    requires Built(x, nodes, i) && a < i
    ensures forall j: nat :: j in nodes[a].succs ==> j < a
  {
    hide Total;
    assert Solved(x, nodes, a);
  }
}
