/** Control-flow graphs, the runs through them, and dominance.

    Blocks are the numbers below |succs| and block 0 is the entry.  succs[b] lists the
    targets of the terminator of b in operand order, so an edge can occur twice. */
module Cfg {

  datatype Graph = Graph(succs: seq<seq<nat>>)
  {
    ghost predicate Valid() {
      && |succs| > 0
      && forall b, i :: 0 <= b < |succs| && 0 <= i < |succs[b]| ==> succs[b][i] < |succs|
    }
  }

  predicate Edge(g: Graph, a: nat, b: nat) {
    a < |g.succs| && b in g.succs[a]
  }

  /** The predecessors of b, once for each edge into b. */
  function Preds(g: Graph, b: nat): (ps: seq<nat>)
    ensures forall a: nat :: a in ps <==> Edge(g, a, b)
  {
    PredsBelow(g, b, |g.succs|)
  }

  function PredsBelow(g: Graph, b: nat, n: nat): (ps: seq<nat>)
    requires n <= |g.succs|
    ensures forall a: nat :: a in ps <==> a < n && b in g.succs[a]
  {
    if n == 0 then [] else
      var c := Count(g.succs[n - 1], b);
      var s := seq(c, _ => n - 1);
      assert c > 0 ==> s[0] == n - 1;
      PredsBelow(g, b, n - 1) + s
  }

  function Count(s: seq<nat>, x: nat): (c: nat)
    ensures c > 0 <==> x in s
  {
    if s == [] then 0 else Count(s[1..], x) + (if s[0] == x then 1 else 0)
  }

  ghost predicate Path(g: Graph, p: seq<nat>) {
    && |p| > 0
    && (forall i :: 0 <= i < |p| ==> p[i] < |g.succs|)
    && (forall i :: 0 <= i < |p| - 1 ==> Edge(g, p[i], p[i + 1]))
  }

  /** A run is a path that starts at the entry block. */
  ghost predicate RunTo(g: Graph, p: seq<nat>, b: nat) {
    Path(g, p) && p[0] == 0 && p[|p| - 1] == b
  }

  ghost predicate Reachable(g: Graph, b: nat) {
    exists p :: RunTo(g, p, b)
  }

  /** a dominates b: every run to b visits a. */
  ghost predicate Dom(g: Graph, a: nat, b: nat) {
    forall p :: RunTo(g, p, b) ==> a in p
  }

  ghost predicate SDom(g: Graph, a: nat, b: nat) {
    a != b && Dom(g, a, b)
  }

  /** The entry block has no predecessors. */
  ghost predicate EntryHasNoPreds(g: Graph) {
    forall a :: !Edge(g, a, 0)
  }

  // ---------------------------------------------------------------- indices into runs

  /** The first index at which x occurs. */
  function First(p: seq<nat>, x: nat): (i: nat)
    requires x in p
    ensures i < |p| && p[i] == x && x !in p[..i]
  {
    if p[0] == x then 0
    else
      assert p == [p[0]] + p[1..];
      var i := First(p[1..], x) + 1;
      assert p[..i] == [p[0]] + p[1..][..i - 1];
      i
  }

  /** The last index at which x occurs. */
  function Last(p: seq<nat>, x: nat): (i: nat)
    requires x in p
    ensures i < |p| && p[i] == x && x !in p[i + 1..]
  {
    var n := |p| - 1;
    if p[n] == x then n
    else
      assert p == p[..n] + [p[n]];
      var i := Last(p[..n], x);
      assert p[i + 1..] == p[..n][i + 1..] + [p[n]];
      i
  }

  lemma LastIsLast(p: seq<nat>, x: nat, m: nat)
    requires m < |p| && p[m] == x
    ensures m <= Last(p, x)
  {
    var l := Last(p, x);
    assert forall k :: l < k < |p| ==> p[k] == p[l + 1..][k - l - 1];
  }

  lemma AfterLast(p: seq<nat>, x: nat, m: nat)
    requires x in p && Last(p, x) < m < |p|
    ensures p[m] != x
  {
    assert p[m] == p[Last(p, x) + 1..][m - Last(p, x) - 1];
  }

  lemma LateVisit(q: seq<nat>, p: seq<nat>, i: nat, x: nat) returns (m: nat)
    requires i < |p| && x in q + p[i + 1..] && x !in q
    ensures i < m < |p| && p[m] == x
  {
    var k :| 0 <= k < |p[i + 1..]| && p[i + 1..][k] == x;
    m := i + 1 + k;
  }

  lemma PrefixIsRun(g: Graph, p: seq<nat>, i: nat)
    requires Path(g, p) && p[0] == 0 && i < |p|
    ensures RunTo(g, p[..i + 1], p[i])
  {
  }

  lemma ConcatPath(g: Graph, p: seq<nat>, q: seq<nat>)
    requires Path(g, p) && Path(g, q) && Edge(g, p[|p| - 1], q[0])
    ensures Path(g, p + q)
  {
    var r := p + q;
    forall i | 0 <= i < |r| - 1
      ensures Edge(g, r[i], r[i + 1])
    {
      if i < |p| - 1 {
        assert Edge(g, p[i], p[i + 1]);
      } else if i >= |p| {
        assert Edge(g, q[i - |p|], q[i - |p| + 1]);
      }
    }
  }

  /** Splicing: a run to p[i] followed by what p does after index i is a run. */
  lemma Splice(g: Graph, q: seq<nat>, p: seq<nat>, i: nat)
    requires Path(g, p) && i < |p| && RunTo(g, q, p[i])
    ensures RunTo(g, q + p[i + 1..], p[|p| - 1])
  {
    if i + 1 < |p| {
      assert Path(g, p[i + 1..]);
      assert Edge(g, p[i], p[i + 1]);
      ConcatPath(g, q, p[i + 1..]);
    } else {
      assert q + p[i + 1..] == q;
    }
  }

  // ---------------------------------------------------------------- dominance

  lemma DomReflexive(g: Graph, a: nat)
    ensures Dom(g, a, a)
  {
  }

  lemma DomTransitive(g: Graph, a: nat, b: nat, c: nat)
    requires Dom(g, a, b) && Dom(g, b, c)
    ensures Dom(g, a, c)
  {
    forall p | RunTo(g, p, c)
      ensures a in p
    {
      var i := First(p, b);
      PrefixIsRun(g, p, i);
      assert a in p[..i + 1];
    }
  }

  lemma DomAntisymmetric(g: Graph, a: nat, b: nat)
    requires Reachable(g, b) && Dom(g, a, b) && Dom(g, b, a)
    ensures a == b
  {
    var p :| RunTo(g, p, b);
    var i := First(p, b);
    PrefixIsRun(g, p, i);
    assert a in p[..i + 1];
    var j := First(p[..i + 1], a);
    PrefixIsRun(g, p, j);
    assert b in p[..j + 1];
  }

  lemma DomIsReachable(g: Graph, a: nat, b: nat)
    requires Reachable(g, b) && Dom(g, a, b)
    ensures Reachable(g, a)
  {
    var p :| RunTo(g, p, b);
    PrefixIsRun(g, p, First(p, a));
  }

  /** The dominators of one block form a chain. */
  lemma DomChain(g: Graph, a: nat, b: nat, c: nat)
    requires Reachable(g, c) && Dom(g, a, c) && Dom(g, b, c)
    ensures Dom(g, a, b) || Dom(g, b, a)
  {
    var p :| RunTo(g, p, c);
    if Last(p, a) <= Last(p, b) {
      DomChainOrdered(g, a, b, c, p);
    } else {
      DomChainOrdered(g, b, a, c, p);
    }
  }

  lemma DomChainOrdered(g: Graph, a: nat, b: nat, c: nat, p: seq<nat>)
    requires Dom(g, a, c) && RunTo(g, p, c) && a in p && b in p
    requires Last(p, a) <= Last(p, b)
    ensures Dom(g, a, b)
  {
    var j := Last(p, b);
    forall q | RunTo(g, q, b)
      ensures a in q
    {
      Splice(g, q, p, j);
      assert a !in p[j + 1..];
    }
  }

  /** A run has not met b yet when it first meets a strict dominator of b. */
  lemma FirstVisitOrder(g: Graph, a: nat, b: nat, p: seq<nat>)
    requires SDom(g, a, b) && Path(g, p) && p[0] == 0 && a in p
    ensures RunTo(g, p[..First(p, a) + 1], a) && b !in p[..First(p, a) + 1]
  {
    var q := p[..First(p, a) + 1];
    PrefixIsRun(g, p, First(p, a));
    if b in q {
      var j := First(q, b);
      PrefixIsRun(g, q, j);
      assert false;
    }
  }

  /** The lemma behind every SSA argument: when a strictly dominates b and b dominates c,
      any run to c visits b after its last visit of a. */
  lemma LastVisitOrder(g: Graph, a: nat, b: nat, c: nat, p: seq<nat>)
    requires SDom(g, a, b) && Dom(g, b, c) && RunTo(g, p, c)
    ensures a in p && b in p && Last(p, a) < Last(p, b)
  {
    DomTransitive(g, a, b, c);
    FirstVisitOrder(g, a, b, p);
    var q := p[..First(p, a) + 1];
    Splice(g, q, p, Last(p, a));
    var m := LateVisit(q, p, Last(p, a), b);
    LastIsLast(p, b, m);
  }

  // ---------------------------------------------------------------- dominator trees

  /** The dominator tree and the dominance frontier, as the passes receive them. */
  datatype DomTree = DomTree(idom: map<nat, nat>, kids: seq<seq<nat>>, front: seq<seq<nat>>)

  ghost predicate IsIdom(g: Graph, d: nat, b: nat) {
    SDom(g, d, b) && forall a :: SDom(g, a, b) ==> Dom(g, a, d)
  }

  ghost predicate InFrontier(g: Graph, a: nat, b: nat) {
    !SDom(g, a, b) && exists p :: Reachable(g, p) && Edge(g, p, b) && Dom(g, a, p)
  }

  ghost predicate TreeOf(g: Graph, t: DomTree) {
    && |t.kids| == |t.front| == |g.succs|
    && (forall b: nat :: b in t.idom <==> b != 0 && b < |g.succs| && Reachable(g, b))
    && (forall b :: b in t.idom ==> t.idom[b] < |g.succs| && IsIdom(g, t.idom[b], b))
    && (forall a, i :: 0 <= a < |t.kids| && 0 <= i < |t.kids[a]| ==>
         t.kids[a][i] in t.idom && t.idom[t.kids[a][i]] == a)
    && (forall b :: b in t.idom ==> b in t.kids[t.idom[b]])
    && (forall a, i, j :: 0 <= a < |t.kids| && 0 <= i < j < |t.kids[a]| ==> t.kids[a][i] != t.kids[a][j])
    && (forall a, b :: 0 <= a < |t.front| && Reachable(g, a) ==> (b in t.front[a] <==> InFrontier(g, a, b)))
  }

  /** The blocks dominated by b, which is the subtree the recursive passes visit below b. */
  ghost function Subtree(g: Graph, b: nat): set<nat> {
    set c | 0 <= c < |g.succs| && Reachable(g, c) && Dom(g, b, c)
  }

  ghost function Dominators(g: Graph, b: nat): set<nat> {
    set a | 0 <= a < |g.succs| && Dom(g, a, b)
  }

  lemma RunEndsInRange(g: Graph, p: seq<nat>, b: nat)
    requires RunTo(g, p, b)
    ensures b < |g.succs|
  {
  }

  lemma EntryReachable(g: Graph)
    requires g.Valid()
    ensures Reachable(g, 0)
    ensures forall b :: Dom(g, 0, b)
  {
    assert RunTo(g, [0], 0);
    forall b, p | RunTo(g, p, b)
      ensures 0 in p
    {
      assert p[0] == 0;
    }
  }

  lemma EdgeReachable(g: Graph, a: nat, b: nat)
    requires g.Valid() && Reachable(g, a) && Edge(g, a, b)
    ensures Reachable(g, b)
  {
    var p :| RunTo(g, p, a);
    assert Path(g, [b]) by {
      var i :| 0 <= i < |g.succs[a]| && g.succs[a][i] == b;
    }
    ConcatPath(g, p, [b]);
    assert RunTo(g, p + [b], b);
  }

  lemma OnlyEntryDominatesEntry(g: Graph, a: nat)
    requires g.Valid() && Dom(g, a, 0)
    ensures a == 0
  {
    assert RunTo(g, [0], 0);
  }

  lemma SubtreeShrinks(g: Graph, a: nat, b: nat)
    requires Reachable(g, b) && SDom(g, a, b) && a < |g.succs|
    ensures Subtree(g, b) < Subtree(g, a)
  {
    forall c | c in Subtree(g, b)
      ensures c in Subtree(g, a)
    {
      DomTransitive(g, a, b, c);
    }
    DomIsReachable(g, a, b);
    assert a in Subtree(g, a);
    if a in Subtree(g, b) {
      DomAntisymmetric(g, a, b);
    }
  }

  lemma DominatorsShrink(g: Graph, a: nat, b: nat)
    requires Reachable(g, b) && SDom(g, a, b) && b < |g.succs|
    ensures Dominators(g, a) < Dominators(g, b)
  {
    forall c | c in Dominators(g, a)
      ensures c in Dominators(g, b)
    {
      DomTransitive(g, c, a, b);
    }
    assert b in Dominators(g, b);
    if b in Dominators(g, a) {
      DomAntisymmetric(g, a, b);
    }
  }

  /** Every block strictly below b in the tree lies in the subtree of exactly one child of b. */
  lemma ChildAbove(g: Graph, t: DomTree, b: nat, c: nat) returns (k: nat)
    requires g.Valid() && TreeOf(g, t) && Reachable(g, c) && c < |g.succs|
    requires SDom(g, b, c) && b < |g.succs|
    ensures k < |t.kids[b]| && Dom(g, t.kids[b][k], c)
    decreases Dominators(g, c)
  {
    if c == 0 {
      OnlyEntryDominatesEntry(g, b);
    }
    var d := t.idom[c];
    assert Dom(g, b, d);
    if d == b {
      k :| 0 <= k < |t.kids[b]| && t.kids[b][k] == c;
    } else {
      DomIsReachable(g, d, c);
      DominatorsShrink(g, d, c);
      k := ChildAbove(g, t, b, d);
      DomTransitive(g, t.kids[b][k], d, c);
    }
  }

  /** Subtrees of distinct children are disjoint. */
  lemma ChildrenApart(g: Graph, t: DomTree, b: nat, i: nat, j: nat)
    requires g.Valid() && TreeOf(g, t) && b < |g.succs|
    requires i < |t.kids[b]| && j < |t.kids[b]| && i != j
    ensures Subtree(g, t.kids[b][i]) !! Subtree(g, t.kids[b][j])
  {
    var x, y := t.kids[b][i], t.kids[b][j];
    assert x != y by {
      if i < j {
        assert t.kids[b][i] != t.kids[b][j];
      } else {
        assert t.kids[b][j] != t.kids[b][i];
      }
    }
    forall c | c in Subtree(g, x) && c in Subtree(g, y)
      ensures false
    {
      DomChain(g, x, y, c);
      if Dom(g, x, y) {
        NotBelowSibling(g, t, b, x, y);
      } else {
        NotBelowSibling(g, t, b, y, x);
      }
    }
  }

  lemma NotBelowSibling(g: Graph, t: DomTree, b: nat, x: nat, y: nat)
    requires TreeOf(g, t) && x in t.idom && y in t.idom && t.idom[x] == b && t.idom[y] == b
    requires x != y
    ensures !Dom(g, x, y)
  {
    if Dom(g, x, y) {
      assert SDom(g, x, y);
      assert Dom(g, x, b);
      assert Dom(g, b, x);
      DomAntisymmetric(g, b, x);
    }
  }

  /** b and the subtrees of its first n children. */
  ghost function Kids(g: Graph, t: DomTree, b: nat, n: nat): set<nat>
    requires b < |t.kids| && n <= |t.kids[b]|
  {
    if n == 0 then {b} else Kids(g, t, b, n - 1) + Subtree(g, t.kids[b][n - 1])
  }

  lemma SelfInSubtree(g: Graph, b: nat)
    requires b < |g.succs| && Reachable(g, b)
    ensures b in Subtree(g, b)
  {
  }

  lemma {:induction false} InKids(g: Graph, t: DomTree, b: nat, n: nat, c: nat)
    requires b < |t.kids| && n <= |t.kids[b]|
    ensures c in Kids(g, t, b, n) <==> c == b || exists j :: 0 <= j < n && c in Subtree(g, t.kids[b][j])
  {
    if n > 0 {
      InKids(g, t, b, n - 1, c);
    }
  }

  lemma KidFacts(g: Graph, t: DomTree, b: nat, i: nat)
    requires g.Valid() && TreeOf(g, t) && b < |g.succs| && i < |t.kids[b]|
    ensures var c := t.kids[b][i];
      && c < |g.succs| && Reachable(g, c) && Subtree(g, c) < Subtree(g, b)
      && Subtree(g, c) !! Kids(g, t, b, i)
  {
    var x := t.kids[b][i];
    SubtreeShrinks(g, b, x);
    forall c | c in Subtree(g, x) && c in Kids(g, t, b, i)
      ensures false
    {
      InKids(g, t, b, i, c);
      if c == b {
        DomAntisymmetric(g, b, x);
      } else {
        var j :| 0 <= j < i && c in Subtree(g, t.kids[b][j]);
        ChildrenApart(g, t, b, i, j);
      }
    }
  }

  lemma KidsAreSubtree(g: Graph, t: DomTree, b: nat)
    requires g.Valid() && TreeOf(g, t) && b < |g.succs| && Reachable(g, b)
    ensures Kids(g, t, b, |t.kids[b]|) == Subtree(g, b)
  {
    var n := |t.kids[b]|;
    forall c: nat
      ensures c in Kids(g, t, b, n) <==> c in Subtree(g, b)
    {
      InKids(g, t, b, n, c);
      if c in Subtree(g, b) && c != b {
        var k := ChildAbove(g, t, b, c);
        assert c in Subtree(g, t.kids[b][k]);
      } else if c in Kids(g, t, b, n) && c != b {
        var j :| 0 <= j < n && c in Subtree(g, t.kids[b][j]);
        KidFacts(g, t, b, j);
      }
    }
  }

  // ---------------------------------------------------------------- joins

  /** If a run goes from a block x that does not strictly dominate its end to that end,
      it crosses the dominance frontier of x after leaving x. */
  lemma CrossesFrontier(g: Graph, x: nat, q: seq<nat>) returns (j: nat)
    requires g.Valid() && Path(g, q) && |q| >= 2 && q[0] == x && Reachable(g, x)
    requires !SDom(g, x, q[|q| - 1])
    ensures 0 < j < |q| && InFrontier(g, x, q[j])
  {
    j := 1;
    EdgeReachable(g, q[0], q[1]);
    while SDom(g, x, q[j])
      invariant 0 < j < |q| && Dom(g, x, q[j - 1])
      invariant Reachable(g, q[j - 1]) && Reachable(g, q[j])
      decreases |q| - j
    {
      j := j + 1;
      assert Edge(g, q[j - 1], q[j]);
      EdgeReachable(g, q[j - 1], q[j]);
    }
    assert Edge(g, q[j - 1], q[j]);
  }

  /** A block on a path from idom(b) to b that avoids idom(b) afterwards never strictly
      dominates b. */
  lemma BetweenIsNotAbove(g: Graph, d: nat, b: nat, q: seq<nat>, k: nat)
    requires g.Valid() && Reachable(g, b) && IsIdom(g, d, b)
    requires Path(g, q) && q[0] == d && q[|q| - 1] == b && d !in q[1..]
    requires 0 < k < |q|
    ensures !SDom(g, q[k], b)
  {
    var x := q[k];
    if SDom(g, x, b) {
      assert Dom(g, x, d);
      assert x in q[1..] by {
        assert q[1..][k - 1] == x;
      }
      assert x != d;
      // d dominates x: otherwise a run to x that avoids d extends to b without d.
      forall r | RunTo(g, r, x)
        ensures d in r
      {
        Splice(g, r, q, k);
        assert d !in q[k + 1..] by {
          assert q[k + 1..] == q[1..][k..];
        }
      }
      DomIsReachable(g, d, b);
      DomAntisymmetric(g, x, d);
    }
  }
}
