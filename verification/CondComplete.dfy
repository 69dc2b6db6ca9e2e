/** Which conditions hold in a block, and when a comparison can no longer be simplified by
    them: the facts behind the completeness of the traversal in passes/cond_simplify.cpp. */
module CondComplete {
  import opened Cfg
  import opened Options
  import opened Ssa
  import opened SsaForm
  import opened DomEdges
  import opened CondSimplify

  // ---------------------------------------------------------------- conditions per block

  /** The terminator of start decides cond on its single edge to b, whose other predecessors
      b dominates. */
  ghost predicate DecidedBy(f: Func, start: nat, b: nat, cond: Condition)
    requires f.Valid()
  {
    && start < |f.blocks| && Edge(f.g, start, b) && Count(f.g.succs[start], b) == 1 && OthersBehind(f.g, start, b)
    && var last := f.blocks[start].insts[|f.blocks[start].insts| - 1];
       && (last.op.JumpCond? || last.op.Switch?)
       && |last.args| > 0 && cond.arg == last.args[0]
       && cond.flag == (if last.op.JumpCond? then First(f.g.succs[start], b) == 0 else First(f.g.succs[start], b) != 0)
  }

  /** cond was decided on a dominating edge that ends strictly above b. */
  ghost predicate CondAbove(f: Func, b: nat, cond: Condition)
    requires f.Valid()
  {
    exists s: nat, i: nat ::
      Decides(f, s, i, cond) && EdgeDom(f.g, s, f.g.succs[s][i], f.g.succs[s][i]) && SDom(f.g, f.g.succs[s][i], b)
  }

  lemma EdgeSource(g: Graph, s: nat, e: nat)
    requires g.Valid() && Reachable(g, e) && EdgeDom(g, s, e, e)
    ensures SDom(g, s, e) && Reachable(g, s)
  {
    forall p | RunTo(g, p, e)
      ensures s in p
    {
      var i: nat :| Takes(p, i, s, e);
    }
    var p :| RunTo(g, p, e);
    PrefixIsRun(g, p, First(p, e));
    var q := p[..First(p, e) + 1];
    var i: nat :| Takes(q, i, s, e);
    PrefixIsRun(g, q, i);
  }

  lemma Twice(s: seq<nat>, x: nat, i: nat, j: nat)
    requires i < j < |s| && s[i] == x && s[j] == x
    ensures Count(s, x) >= 2
  {
    assert s == s[..j] + s[j..];
    CountConcat(s[..j], s[j..], x);
    assert s[..j][i] == x && s[j..][0] == x;
    CountIn(s[..j], x);
    CountIn(s[j..], x);
  }

  /** The only position of a successor that occurs once. */
  lemma OncePosition(s: seq<nat>, x: nat, i: nat)
    requires i < |s| && s[i] == x && Count(s, x) == 1
    ensures First(s, x) == i
  {
    if First(s, x) < i {
      Twice(s, x, First(s, x), i);
    }
  }

  lemma {:induction false} CountIn(s: seq<nat>, x: nat)
    requires x in s
    ensures Count(s, x) > 0
  {
    if s[0] != x {
      CountIn(s[1..], x);
    }
  }

  /** The conditions of a block are those from above and those its own in-edges decide. */
  lemma CondAtSplit(f: Func, ty: Ref -> bool, b: nat, cond: Condition)
    requires Simplifiable(f, ty) && Reachable(f.g, b) && b < |f.blocks|
    ensures CondAt(f, b, cond) <==> CondAbove(f, b, cond) || exists start: nat :: DecidedBy(f, start, b, cond)
  {
    hide Simplifiable, Dom, EdgeDom, OthersBehind, Decides, DecidedBy;
    SimplifiableValid(f, ty);
    if CondAt(f, b, cond) {
      var s, i := CondSource(f, b, cond);
      if f.g.succs[s][i] == b {
        DecidesIsDecidedBy(f, s, i, b, cond);
      }
    }
    if start: nat :| DecidedBy(f, start, b, cond) {
      var i := DecidedByDecides(f, ty, start, b, cond);
      DomReflexive(f.g, b);
    }
  }

  lemma DecidesIsDecidedBy(f: Func, s: nat, i: nat, b: nat, cond: Condition)
    requires f.Valid() && Decides(f, s, i, cond) && f.g.succs[s][i] == b && EdgeDom(f.g, s, b, b)
    ensures DecidedBy(f, s, b, cond)
  {
    hide EdgeDom, OthersBehind;
    OncePosition(f.g.succs[s], b, i);
    assert Edge(f.g, s, b);
    EdgeDomBehind(f.g, s, b);
  }

  lemma DecidedByDecides(f: Func, ty: Ref -> bool, start: nat, b: nat, cond: Condition) returns (i: nat)
    requires Simplifiable(f, ty) && Reachable(f.g, b) && b < |f.blocks| && DecidedBy(f, start, b, cond)
    ensures Decides(f, start, i, cond) && f.g.succs[start][i] == b && EdgeDom(f.g, start, b, b)
  {
    hide EdgeDom, OthersBehind;
    i := First(f.g.succs[start], b);
    DominatorEdgeExact(f.g, start, b);
    assert b != 0;
    EdgeSource(f.g, start, b);
  }

  /** What holds above a child holds at its parent. */
  lemma AboveKid(f: Func, t: DomTree, b: nat, c: nat, cond: Condition)
    requires f.Valid() && TreeOf(f.g, t) && c in t.idom && t.idom[c] == b
    ensures CondAbove(f, c, cond) <==> CondAt(f, b, cond)
  {
    hide Dom, EdgeDom;
    if CondAbove(f, c, cond) {
      var s: nat, i: nat :| Decides(f, s, i, cond) && EdgeDom(f.g, s, f.g.succs[s][i], f.g.succs[s][i]) &&
        SDom(f.g, f.g.succs[s][i], c);
      assert Dom(f.g, f.g.succs[s][i], b);
    }
    if CondAt(f, b, cond) {
      var s, i := CondSource(f, b, cond);
      DomTransitive(f.g, f.g.succs[s][i], b, c);
      if f.g.succs[s][i] == c {
        DomAntisymmetric(f.g, b, c);
      }
    }
  }

  lemma NothingAboveEntry(f: Func, cond: Condition)
    requires f.Valid()
    ensures !CondAbove(f, 0, cond)
  {
    if CondAbove(f, 0, cond) {
      var s: nat, i: nat :| Decides(f, s, i, cond) && EdgeDom(f.g, s, f.g.succs[s][i], f.g.succs[s][i]) &&
        SDom(f.g, f.g.succs[s][i], 0);
      OnlyEntryDominatesEntry(f.g, f.g.succs[s][i]);
    }
  }

  // ---------------------------------------------------------------- settled instructions

  /** No condition that holds in block b decides its instruction k. */
  ghost predicate Settled(f: Func, b: nat, k: nat)
    requires f.Valid() && b < |f.blocks| && k < |f.blocks[b].insts|
  {
    forall cond :: CondAt(f, b, cond) ==> IsRedundant(f, f.blocks[b].insts[k], cond).None?
  }

  ghost predicate AllSettled(f: Func, d: set<nat>)
    requires f.Valid()
  {
    forall b: nat, k: nat :: b in d && b < |f.blocks| && Reachable(f.g, b) && k < |f.blocks[b].insts| ==>
      Settled(f, b, k)
  }

  /** g keeps the instructions that can be seen from instruction k of b. */
  ghost predicate KeptAbove(f: Func, g: Func, b: nat, k: nat) {
    && SameTerminators(f, g)
    && forall d: nat, j: nat ::
         d < |f.blocks| && j < |f.blocks[d].insts| && (if d == b then j <= k else Dom(f.g, d, b)) ==>
           g.blocks[d].insts[j] == f.blocks[d].insts[j]
  }

  lemma SeenAlike(f: Func, g: Func, b: nat, k: nat, a: Operand, d: nat, j: nat)
    requires f.Valid() && KeptAbove(f, g, b, k) && Reachable(f.g, b)
    requires if d == b then j <= k else Dom(f.g, d, b)
    requires OperandOk(f, a, d, j)
    ensures InstAtRef(g, a) == InstAtRef(f, a)
    ensures a.Use? && a.r.Res? ==> if a.r.b == b then a.r.k <= k else Dom(f.g, a.r.b, b)
  {
    hide Dom;
    if a.Use? && a.r.Res? {
      if a.r.b != d {
        if d != b {
          DomTransitive(f.g, a.r.b, d, b);
        }
        if a.r.b == b && d != b {
          DomIsReachable(f.g, d, b);
          DomAntisymmetric(f.g, b, d);
        }
      }
    }
  }

  /** A change that nothing above can see settles or unsettles nothing. */
  lemma SettledStays(f: Func, g: Func, ty: Ref -> bool, b: nat, k: nat)
    requires Simplifiable(f, ty) && g.Valid() && b < |f.blocks| && Reachable(f.g, b) && k < |f.blocks[b].insts|
    requires KeptAbove(f, g, b, k) && Settled(f, b, k)
    ensures Settled(g, b, k)
  {
    hide Simplifiable, KeptAbove, IsRedundant, CondAt;
    SimplifiableValid(f, ty);
    KeptHere(f, g, b, k);
    forall cond | CondAt(g, b, cond)
      ensures IsRedundant(g, g.blocks[b].insts[k], cond).None?
    {
      CondBack(f, g, b, cond);
      RedundantAlike(f, g, ty, b, k, cond);
    }
  }

  lemma KeptHere(f: Func, g: Func, b: nat, k: nat)
    requires KeptAbove(f, g, b, k) && b < |f.blocks| && k < |f.blocks[b].insts|
    ensures SameTerminators(f, g) && g.blocks[b].insts[k] == f.blocks[b].insts[k]
  {
  }

  lemma CondBack(f: Func, g: Func, b: nat, cond: Condition)
    requires f.Valid() && g.Valid() && SameTerminators(f, g) && CondAt(g, b, cond)
    ensures CondAt(f, b, cond)
  {
    hide CondAt;
    assert CondsAt(g, b, [cond]);
    CondsStay(g, f, b, [cond]);
    assert cond in [cond];
  }

  lemma RedundantAlike(f: Func, g: Func, ty: Ref -> bool, b: nat, k: nat, cond: Condition)
    requires Simplifiable(f, ty) && g.Valid() && b < |f.blocks| && Reachable(f.g, b) && k < |f.blocks[b].insts|
    requires KeptAbove(f, g, b, k) && CondAt(f, b, cond)
    ensures IsRedundant(g, f.blocks[b].insts[k], cond) == IsRedundant(f, f.blocks[b].insts[k], cond)
  {
    hide Simplifiable, KeptAbove, CondAt, Dom, InstOk, OperandOk, InstAtRef;
    SimplifiableValid(f, ty);
    ArgsAlike(f, g, ty, b, k, b, k);
    ConditionAlike(f, g, ty, b, k, cond);
    if InstAtRef(f, cond.arg).Some? && IsCmp(InstAtRef(f, cond.arg).value) {
      PriorAlike(f, g, ty, b, k, cond);
    }
  }

  lemma ArgsAlike(f: Func, g: Func, ty: Ref -> bool, b: nat, k: nat, d: nat, j: nat)
    requires Simplifiable(f, ty) && b < |f.blocks| && Reachable(f.g, b) && k < |f.blocks[b].insts|
    requires KeptAbove(f, g, b, k) && d < |f.blocks| && j < |f.blocks[d].insts|
    requires if d == b then j <= k else Dom(f.g, d, b)
    ensures forall i :: 0 <= i < |f.blocks[d].insts[j].args| ==>
      InstAtRef(g, f.blocks[d].insts[j].args[i]) == InstAtRef(f, f.blocks[d].insts[j].args[i])
  {
    hide Simplifiable, KeptAbove, Dom, OperandOk, InstAtRef;
    if d != b {
      DomIsReachable(f.g, d, b);
    }
    BlockIsOk(f, ty, d, j);
    forall i | 0 <= i < |f.blocks[d].insts[j].args|
      ensures InstAtRef(g, f.blocks[d].insts[j].args[i]) == InstAtRef(f, f.blocks[d].insts[j].args[i])
    {
      SimplifiableValid(f, ty);
      SeenAlike(f, g, b, k, f.blocks[d].insts[j].args[i], d, j);
    }
  }

  lemma BlockIsOk(f: Func, ty: Ref -> bool, d: nat, j: nat)
    requires Simplifiable(f, ty) && d < |f.blocks| && Reachable(f.g, d) && j < |f.blocks[d].insts|
    ensures InstOk(f, d, j)
  {
    hide InstOk, EdgeOk, Dom;
    assert BlockOk(f, d);
  }

  /** Where the instruction behind a condition stands. */
  lemma ConditionSeen(f: Func, ty: Ref -> bool, b: nat, cond: Condition) returns (s: nat)
    requires Simplifiable(f, ty) && b < |f.blocks| && Reachable(f.g, b) && CondAt(f, b, cond)
    ensures s < |f.blocks| && s != b && Dom(f.g, s, b) && |f.blocks[s].insts| > 0
    ensures OperandOk(f, cond.arg, s, |f.blocks[s].insts| - 1)
  {
    hide Simplifiable, Dom, EdgeDom, OperandOk;
    SimplifiableValid(f, ty);
    var x;
    s, x := CondSource(f, b, cond);
    var e := f.g.succs[s][x];
    DomIsReachable(f.g, e, b);
    EdgeSource(f.g, s, e);
    DomTransitive(f.g, s, e, b);
    if s == b {
      DomAntisymmetric(f.g, s, e);
    }
    HasTerminator(f, ty, s);
    BlockIsOk(f, ty, s, |f.blocks[s].insts| - 1);
  }

  lemma HasTerminator(f: Func, ty: Ref -> bool, s: nat)
    requires Simplifiable(f, ty) && s < |f.blocks|
    ensures |f.blocks[s].insts| > 0
  {
    assert Terminated(f.blocks[s].insts);
  }

  lemma ConditionAlike(f: Func, g: Func, ty: Ref -> bool, b: nat, k: nat, cond: Condition)
    requires Simplifiable(f, ty) && b < |f.blocks| && Reachable(f.g, b)
    requires KeptAbove(f, g, b, k) && CondAt(f, b, cond)
    ensures InstAtRef(g, cond.arg) == InstAtRef(f, cond.arg)
  {
    hide Simplifiable, KeptAbove, CondAt, Dom, OperandOk, InstAtRef;
    SimplifiableValid(f, ty);
    var s := ConditionSeen(f, ty, b, cond);
    SeenAlike(f, g, b, k, cond.arg, s, |f.blocks[s].insts| - 1);
  }

  lemma PriorAlike(f: Func, g: Func, ty: Ref -> bool, b: nat, k: nat, cond: Condition)
    requires Simplifiable(f, ty) && b < |f.blocks| && Reachable(f.g, b) && k < |f.blocks[b].insts|
    requires KeptAbove(f, g, b, k) && CondAt(f, b, cond) && InstAtRef(f, cond.arg).Some?
    ensures forall i :: 0 <= i < |InstAtRef(f, cond.arg).value.args| ==>
      InstAtRef(g, InstAtRef(f, cond.arg).value.args[i]) == InstAtRef(f, InstAtRef(f, cond.arg).value.args[i])
  {
    hide Simplifiable, KeptAbove, CondAt, Dom;
    SimplifiableValid(f, ty);
    var s := ConditionSeen(f, ty, b, cond);
    SeenAlike(f, g, b, k, cond.arg, s, |f.blocks[s].insts| - 1);
    ArgsAlike(f, g, ty, b, k, cond.arg.r.b, cond.arg.r.k);
  }

  // ---------------------------------------------------------------- changes below a block

  /** f and g have the same instructions outside the blocks of k. */
  ghost predicate SameOutside(f: Func, g: Func, k: set<nat>) {
    |g.blocks| == |f.blocks| && forall b: nat :: b < |f.blocks| && b !in k ==> g.blocks[b] == f.blocks[b]
  }

  /** f and g differ in at most one instruction. */
  ghost predicate SameBut(f: Func, g: Func, b: nat, k: nat) {
    && |g.blocks| == |f.blocks|
    && forall c: nat, m: nat ::
         c < |f.blocks| && m < |f.blocks[c].insts| && m < |g.blocks[c].insts| && !(c == b && m == k) ==>
           g.blocks[c].insts[m] == f.blocks[c].insts[m]
  }

  lemma SettledBefore(f: Func, g: Func, ty: Ref -> bool, b: nat, k: nat, m: nat)
    requires Simplifiable(f, ty) && g.Valid() && b < |f.blocks| && Reachable(f.g, b) && m < k < |f.blocks[b].insts|
    requires SameTerminators(f, g) && SameBut(f, g, b, k) && Settled(f, b, m)
    ensures Settled(g, b, m)
  {
    hide Simplifiable, Settled, Dom;
    SimplifiableValid(f, ty);
    assert KeptAbove(f, g, b, m);
    SettledStays(f, g, ty, b, m);
  }

  lemma SettledOutside(f: Func, g: Func, ty: Ref -> bool, d: set<nat>, c: nat)
    requires Simplifiable(f, ty) && g.Valid() && c < |f.blocks| && Reachable(f.g, c)
    requires SameTerminators(f, g) && SameOutside(f, g, Subtree(f.g, c)) && d !! Subtree(f.g, c)
    requires AllSettled(f, d)
    ensures AllSettled(g, d)
  {
    hide Simplifiable, Settled;
    SimplifiableValid(f, ty);
    forall b: nat, k: nat | b in d && b < |g.blocks| && Reachable(g.g, b) && k < |g.blocks[b].insts|
      ensures Settled(g, b, k)
    {
      OutsideKept(f, g, c, b, k);
      SettledStays(f, g, ty, b, k);
    }
  }

  lemma OutsideKept(f: Func, g: Func, c: nat, b: nat, k: nat)
    requires f.Valid() && b < |f.blocks| && Reachable(f.g, b) && k < |f.blocks[b].insts|
    requires SameTerminators(f, g) && SameOutside(f, g, Subtree(f.g, c)) && b !in Subtree(f.g, c)
    ensures KeptAbove(f, g, b, k)
  {
    hide Dom;
    forall d: nat | d < |f.blocks| && Dom(f.g, d, b)
      ensures d !in Subtree(f.g, c)
    {
      if d in Subtree(f.g, c) {
        DomTransitive(f.g, c, d, b);
      }
    }
    DomReflexive(f.g, b);
  }
}
