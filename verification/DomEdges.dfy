/** Edges that dominate blocks (IsDominatorEdge in passes/cond_simplify.cpp and the same
    test in core/analysis/dominator.h). */
module DomEdges {
  import opened Cfg

  /** Step i of p takes the edge from s to e. */
  predicate Takes(p: seq<nat>, i: nat, s: nat, e: nat) {
    i + 1 < |p| && p[i] == s && p[i + 1] == e
  }

  /** Every run to b takes the edge from s to e. */
  ghost predicate EdgeDom(g: Graph, s: nat, e: nat, b: nat) {
    forall p :: RunTo(g, p, b) ==> exists i :: Takes(p, i, s, e)
  }

  /** Dominance read off the tree; unreachable blocks are dominated by everything. */
  function TreeDominates(g: Graph, t: DomTree, a: nat, b: nat): (r: bool)
    requires g.Valid() && TreeOf(g, t) && b < |g.succs|
    ensures r <==> Dom(g, a, b)
    decreases Dominators(g, b)
  {
    if a == b then
      DomReflexive(g, b);
      true
    else if b in t.idom then
      DominatorsShrink(g, t.idom[b], b);
      TreeStep(g, t, a, b);
      TreeDominates(g, t, a, t.idom[b])
    else
      TreeRoot(g, t, a, b);
      b != 0
  }

  lemma TreeStep(g: Graph, t: DomTree, a: nat, b: nat)
    requires g.Valid() && TreeOf(g, t) && b in t.idom && a != b
    ensures Dom(g, a, t.idom[b]) <==> Dom(g, a, b)
  {
    if Dom(g, a, t.idom[b]) {
      DomTransitive(g, a, t.idom[b], b);
    }
  }

  lemma TreeRoot(g: Graph, t: DomTree, a: nat, b: nat)
    requires g.Valid() && TreeOf(g, t) && b < |g.succs| && b !in t.idom && a != b
    ensures Dom(g, a, b) <==> b != 0
  {
    if b == 0 {
      if Dom(g, a, 0) {
        OnlyEntryDominatesEntry(g, a);
      }
    } else {
      assert !Reachable(g, b);
    }
  }

  /** The edge occurs once, and every other way into end has passed end. */
  ghost predicate Accepts(g: Graph, start: nat, end: nat)
    requires start < |g.succs|
  {
    Count(g.succs[start], end) == 1 && OthersBehind(g, start, end)
  }

  /** Whether every way into end, other than along the one edge from start, has passed end. */
  method IsDominatorEdge(g: Graph, t: DomTree, start: nat, end: nat) returns (r: bool)
    requires g.Valid() && TreeOf(g, t) && end < |g.succs| && Edge(g, start, end)
    ensures r <==> Accepts(g, start, end)
  {
    var preds := Preds(g, end);
    PredsCount(g, start, end);
    if |preds| == 1 {
      OnlyPred(g, start, end);
      return true;
    }
    var duplicates := 0;
    for i := 0 to |preds|
      invariant duplicates == Count(preds[..i], start) && duplicates <= 1
      invariant forall j :: 0 <= j < i && preds[j] != start ==> Dom(g, end, preds[j])
    {
      CountAppend(preds, i, start);
      assert Edge(g, preds[i], end);
      if preds[i] == start {
        if duplicates != 0 {
          CountPrefix(preds, i + 1, start);
          return false;
        }
        duplicates := duplicates + 1;
      } else if !TreeDominates(g, t, end, preds[i]) {
        assert Edge(g, preds[i], end) && preds[i] != start;
        return false;
      }
    }
    assert preds[..|preds|] == preds;
    forall p: nat | Edge(g, p, end) && p != start
      ensures Dom(g, end, p)
    {
      var j :| 0 <= j < |preds| && preds[j] == p;
    }
    return true;
  }

  ghost predicate OthersBehind(g: Graph, start: nat, end: nat) {
    forall p: nat :: Edge(g, p, end) && p != start ==> Dom(g, end, p)
  }

  // ---------------------------------------------------------------- counting predecessors

  lemma {:induction false} CountConcat(s: seq<nat>, t: seq<nat>, x: nat)
    ensures Count(s + t, x) == Count(s, x) + Count(t, x)
  {
    if s == [] {
      assert s + t == t;
    } else {
      assert (s + t)[1..] == s[1..] + t;
      CountConcat(s[1..], t, x);
    }
  }

  lemma CountAppend(s: seq<nat>, i: nat, x: nat)
    requires i < |s|
    ensures Count(s[..i + 1], x) == Count(s[..i], x) + if s[i] == x then 1 else 0
  {
    assert s[..i + 1] == s[..i] + [s[i]];
    CountConcat(s[..i], [s[i]], x);
  }

  lemma CountPrefix(s: seq<nat>, i: nat, x: nat)
    requires i <= |s|
    ensures Count(s[..i], x) <= Count(s, x)
  {
    assert s == s[..i] + s[i..];
    CountConcat(s[..i], s[i..], x);
  }

  lemma {:induction false} CountConstant(n: nat, y: nat, x: nat)
    ensures Count(seq(n, _ => y), x) == if x == y then n else 0
  {
    if n > 0 {
      CountConstant(n - 1, y, x);
      assert seq(n, _ => y)[1..] == seq(n - 1, _ => y);
    }
  }

  /** The predecessor list names start once for each edge to end. */
  lemma {:induction false} PredsBelowCount(g: Graph, start: nat, end: nat, n: nat)
    requires n <= |g.succs| && start < |g.succs|
    ensures Count(PredsBelow(g, end, n), start) == if start < n then Count(g.succs[start], end) else 0
  {
    if n > 0 {
      PredsBelowCount(g, start, end, n - 1);
      var c := Count(g.succs[n - 1], end);
      CountConcat(PredsBelow(g, end, n - 1), seq(c, _ => n - 1), start);
      CountConstant(c, n - 1, start);
    }
  }

  lemma PredsCount(g: Graph, start: nat, end: nat)
    requires start < |g.succs|
    ensures Count(Preds(g, end), start) == Count(g.succs[start], end)
  {
    PredsBelowCount(g, start, end, |g.succs|);
  }

  lemma OnlyPred(g: Graph, start: nat, end: nat)
    requires Edge(g, start, end) && |Preds(g, end)| == 1
    ensures Count(g.succs[start], end) == 1 && OthersBehind(g, start, end)
  {
    var preds := Preds(g, end);
    PredsCount(g, start, end);
    assert start in preds && preds == [start];
    assert preds[1..] == [];
    forall p: nat | Edge(g, p, end)
      ensures p == start
    {
      assert p in preds;
    }
  }

  // ---------------------------------------------------------------- what the test means

  /** For a block other than the entry the test accepts exactly the edges that occur once and
      that every run to the block takes.  For the entry it never means that. */
  lemma DominatorEdgeExact(g: Graph, start: nat, end: nat)
    requires g.Valid() && end < |g.succs| && Edge(g, start, end)
    ensures end != 0 ==> (OthersBehind(g, start, end) <==> EdgeDom(g, start, end, end))
    ensures end != 0 ==> (Accepts(g, start, end) <==> EdgeDom(g, start, end, end) && Count(g.succs[start], end) == 1)
    ensures end == 0 ==> !EdgeDom(g, start, end, end)
  {
    if end == 0 {
      assert RunTo(g, [0], 0);
      assert forall i: nat :: !Takes([0], i, start, end);
    } else {
      if OthersBehind(g, start, end) {
        forall p | RunTo(g, p, end)
          ensures exists i :: Takes(p, i, start, end)
        {
          FirstEntry(g, start, end, p);
        }
      }
      if EdgeDom(g, start, end, end) {
        EdgeDomBehind(g, start, end);
      }
    }
  }

  lemma FirstEntry(g: Graph, start: nat, end: nat, p: seq<nat>)
    requires g.Valid() && end != 0 && OthersBehind(g, start, end) && RunTo(g, p, end)
    ensures Takes(p, First(p, end) - 1, start, end)
  {
    var i := First(p, end);
    assert Edge(g, p[i - 1], p[i]);
    PrefixIsRun(g, p, i - 1);
    if p[i - 1] != start {
      assert false;
    }
  }

  lemma EdgeDomBehind(g: Graph, start: nat, end: nat)
    requires g.Valid() && end < |g.succs| && EdgeDom(g, start, end, end)
    ensures OthersBehind(g, start, end)
  {
    forall p: nat, q | Edge(g, p, end) && p != start && RunTo(g, q, p)
      ensures end in q
    {
      ConcatPath(g, q, [end]);
      var r := q + [end];
      assert RunTo(g, r, end);
      var i: nat :| Takes(r, i, start, end);
      if i + 1 < |q| {
        assert q[i + 1] == end;
      }
    }
  }

  /** The entry block with a loop back to itself: the test accepts the edge although the run
      that has just started has not taken it. */
  lemma EntryLoopAccepted()
    ensures var g := Graph([[0, 1], []]);
      g.Valid() && Edge(g, 0, 0) && Accepts(g, 0, 0) && !EdgeDom(g, 0, 0, 0)
  {
    var g := Graph([[0, 1], []]);
    assert PredsBelow(g, 0, 0) == [];
    assert Count(g.succs[0][1..], 0) == 0;
    assert PredsBelow(g, 0, 1) == [0];
    assert Count(g.succs[1], 0) == 0;
    assert PredsBelow(g, 0, 2) == [0];
    DominatorEdgeExact(g, 0, 0);
  }

  /** A block with the same successor twice: every run takes the edge, but the test rejects it. */
  lemma DoubleEdgeRejected()
    ensures var g := Graph([[1, 1], []]);
      g.Valid() && Edge(g, 0, 1) && EdgeDom(g, 0, 1, 1) && !Accepts(g, 0, 1)
  {
    var g := Graph([[1, 1], []]);
    assert g.succs[0][1..] == [1] && [1][1..] == [];
    assert Count(g.succs[0], 1) == 2;
    assert OthersBehind(g, 0, 1);
    DominatorEdgeExact(g, 0, 1);
  }

  // ---------------------------------------------------------------- order of visits

  lemma EdgeDomTrans(g: Graph, s: nat, e: nat, b: nat)
    requires EdgeDom(g, s, e, e) && Dom(g, e, b)
    ensures EdgeDom(g, s, e, b)
  {
    forall p | RunTo(g, p, b)
      ensures exists i :: Takes(p, i, s, e)
    {
      var j := First(p, e);
      PrefixIsRun(g, p, j);
      var i: nat :| Takes(p[..j + 1], i, s, e);
      assert Takes(p, i, s, e);
    }
  }

  /** If x dominates s, a run to b does not visit x after its last use of an edge from s
      that every run to b takes. */
  lemma NotAfterEdge(g: Graph, x: nat, s: nat, e: nat, b: nat, p: seq<nat>, j: nat, m: nat)
    requires g.Valid() && Dom(g, x, s) && EdgeDom(g, s, e, b) && RunTo(g, p, b)
    requires Takes(p, j, s, e) && forall i: nat :: Takes(p, i, s, e) ==> i <= j
    requires m < |p| && p[m] == x
    ensures m <= j
  {
    if m > j {
      var i0 := First(p, x);
      var q := p[..i0 + 1];
      PrefixIsRun(g, p, i0);
      Splice(g, q, p, m);
      var r := q + p[m + 1..];
      var i: nat :| Takes(r, i, s, e);
      EdgeInSplice(g, x, s, e, p, i0, m, i);
    }
  }

  lemma EdgeInSplice(g: Graph, x: nat, s: nat, e: nat, p: seq<nat>, i0: nat, m: nat, i: nat)
    requires g.Valid() && Dom(g, x, s) && Path(g, p) && p[0] == 0
    requires i0 <= m < |p| && p[m] == x && p[i0] == x && x !in p[..i0]
    requires Takes(p[..i0 + 1] + p[m + 1..], i, s, e)
    ensures exists i' :: i' >= m && Takes(p, i', s, e)
  {
    var r := p[..i0 + 1] + p[m + 1..];
    if i < i0 {
      PrefixIsRun(g, p, i);
      assert false;
    } else {
      assert r[i + 1] == p[m + 1 + (i - i0)];
      assert r[i] == p[m + (i - i0)];
      assert Takes(p, m + (i - i0), s, e);
    }
  }
}
