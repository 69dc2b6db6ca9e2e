/** The traversal of passes/cond_simplify.cpp: a stack of conditions from dominating edges,
    pushed and popped along the dominator tree while comparisons are rewritten in place. */
module CondTraverse {
  import opened Cfg
  import opened Options
  import opened Ssa
  import opened SsaForm
  import opened DomEdges
  import opened CondSimplify
  import opened CondComplete

  /** conds are exactly the conditions that hold in block b. */
  ghost predicate Standing(f: Func, ty: Ref -> bool, b: nat, conds: seq<Condition>) {
    && Simplifiable(f, ty) && b < |f.blocks| && Reachable(f.g, b)
    && forall c :: c in conds <==> CondAt(f, b, c)
  }

  /** conds are exactly the conditions that hold above block b. */
  ghost predicate Arriving(f: Func, ty: Ref -> bool, b: nat, conds: seq<Condition>) {
    && Simplifiable(f, ty) && b < |f.blocks| && Reachable(f.g, b)
    && forall c :: c in conds <==> CondAbove(f, b, c)
  }

  /** A comparison of a reachable block becomes the constant that one before it decides. */
  ghost predicate Folds(f: Func, b: nat, k: nat, flag: bool, g: Func) {
    && f.Valid() && b < |f.blocks| && k < |f.blocks[b].insts| && Reachable(f.g, b) && Decided(f, b, k, flag)
    && g == Rewritten(f, b, k, flag)
  }

  ghost predicate FoldStep(f: Func, g: Func) {
    exists b: nat, k: nat, flag: bool :: Folds(f, b, k, flag, g)
  }

  ghost predicate FoldSteps(trace: seq<Func>) {
    |trace| > 0 && forall i :: 0 <= i < |trace| - 1 ==> FoldStep(trace[i], trace[i + 1])
  }

  /** g comes from f by such steps and by nothing else. */
  ghost predicate Folded(f: Func, g: Func) {
    exists trace :: FoldSteps(trace) && trace[0] == f && trace[|trace| - 1] == g
  }

  lemma FoldedRefl(f: Func)
    ensures Folded(f, f)
  {
    assert FoldSteps([f]) && [f][0] == f;
  }

  lemma FoldedOnce(f: Func, g: Func)
    requires FoldStep(f, g)
    ensures Folded(f, g)
  {
    hide FoldStep;
    assert FoldSteps([f, g]) && [f, g][0] == f && [f, g][1] == g;
  }

  lemma FoldedTrans(f: Func, g: Func, h: Func)
    requires Folded(f, g) && Folded(g, h)
    ensures Folded(f, h)
  {
    hide FoldStep;
    var p :| FoldSteps(p) && p[0] == f && p[|p| - 1] == g;
    var q :| FoldSteps(q) && q[0] == g && q[|q| - 1] == h;
    var trace := p + q[1..];
    forall i | 0 <= i < |trace| - 1
      ensures FoldStep(trace[i], trace[i + 1])
    {
      if i < |p| - 1 {
        assert FoldStep(p[i], p[i + 1]);
      } else {
        assert FoldStep(q[i - |p| + 1], q[i - |p| + 2]);
      }
    }
    assert trace[|trace| - 1] == h;
    assert FoldSteps(trace);
  }

  /** g is f with some comparisons folded; in an invertible function this changes no run. */
  ghost predicate Refines(f: Func, g: Func, ty: Ref -> bool) {
    && f.Valid() && Simplifiable(g, ty) && (Invertible(f) ==> Invertible(g) && SameRuns(f, g))
    && SameTerminators(f, g) && OnlyConstants(f, g) && Folded(f, g)
  }

  ghost predicate OnlyConstants(f: Func, g: Func)
    requires SameTerminators(f, g)
  {
    forall b: nat :: b < |f.blocks| ==>
      && g.blocks[b].phis == f.blocks[b].phis
      && forall k: nat :: k < |f.blocks[b].insts| ==> ConstantFor(f.blocks[b].insts[k], g.blocks[b].insts[k])
  }

  predicate ConstantFor(inst: Inst, inst': Inst) {
    inst' == inst || (IsCmp(inst) && exists flag :: inst' == Inst(Mov(false), [Imm(Bool(flag))], inst.rets))
  }

  lemma RefinesRefl(f: Func, ty: Ref -> bool)
    requires Simplifiable(f, ty)
    ensures Refines(f, f, ty)
  {
    hide Simplifiable, Invertible, Folded;
    SimplifiableValid(f, ty);
    FoldedRefl(f);
  }

  lemma RefinesTrans(f: Func, g: Func, h: Func, ty: Ref -> bool)
    requires Refines(f, g, ty) && Refines(g, h, ty)
    ensures Refines(f, h, ty)
  {
    hide SameRuns, Simplifiable, Invertible, Folded;
    SimplifiableValid(g, ty);
    SimplifiableValid(h, ty);
    FoldedTrans(f, g, h);
    if Invertible(f) {
      SameRunsTrans(f, g, h);
    }
  }

  lemma StandsAfter(f: Func, g: Func, ty: Ref -> bool, b: nat, conds: seq<Condition>)
    requires Standing(f, ty, b, conds) && Refines(f, g, ty)
    ensures Standing(g, ty, b, conds)
  {
    hide Simplifiable, Invertible, SameRuns, CondAt, OnlyConstants, Folded;
    SimplifiableValid(f, ty);
    SimplifiableValid(g, ty);
    forall c
      ensures CondAt(f, b, c) <==> CondAt(g, b, c)
    {
      if CondAt(f, b, c) {
        CondBack(g, f, b, c);
      }
      if CondAt(g, b, c) {
        CondBack(f, g, b, c);
      }
    }
  }

  lemma RewriteRefines(f: Func, ty: Ref -> bool, b: nat, k: nat, conds: seq<Condition>, cond: Condition)
    requires Standing(f, ty, b, conds) && cond in conds && k < |f.blocks[b].insts|
    requires IsRedundant(f, f.blocks[b].insts[k], cond).Some?
    ensures Refines(f, Rewritten(f, b, k, IsRedundant(f, f.blocks[b].insts[k], cond).value), ty)
  {
    hide Simplifiable, Invertible, SameRuns, Rewritten, AlwaysIs, CondAt, OnlyConstants, SameTerminators, IsRedundant,
      Folded, Decided;
    var flag := IsRedundant(f, f.blocks[b].insts[k], cond).value;
    OnlyCmpRedundant(f, f.blocks[b].insts[k], cond);
    SimplifiableValid(f, ty);
    RewriteStaysSimplifiable(f, ty, b, k, flag);
    SimplifiableValid(Rewritten(f, b, k, flag), ty);
    if Invertible(f) {
      AlwaysRedundant(f, ty, b, k, cond);
      RunsSame(f, ty, b, k, flag);
      RewriteStaysInvertible(f, ty, b, k, flag);
    }
    KeepsTerminators(f, ty, b, k, flag);
    RewritesOne(f, b, k, flag);
    DecidedExact(f, b, k, flag);
    assert Folds(f, b, k, flag, Rewritten(f, b, k, flag));
    FoldedOnce(f, Rewritten(f, b, k, flag));
  }

  lemma RewritesOne(f: Func, b: nat, k: nat, flag: bool)
    requires b < |f.blocks| && k < |f.blocks[b].insts| && IsCmp(f.blocks[b].insts[k])
    requires SameTerminators(f, Rewritten(f, b, k, flag))
    ensures OnlyConstants(f, Rewritten(f, b, k, flag)) && SameBut(f, Rewritten(f, b, k, flag), b, k)
    ensures SameOutside(f, Rewritten(f, b, k, flag), {b})
    ensures !IsCmp(Rewritten(f, b, k, flag).blocks[b].insts[k])
  {
    assert ConstantFor(f.blocks[b].insts[k], Rewritten(f, b, k, flag).blocks[b].insts[k]);
  }

  lemma KeepsTerminators(f: Func, ty: Ref -> bool, b: nat, k: nat, flag: bool)
    requires Simplifiable(f, ty) && b < |f.blocks| && k < |f.blocks[b].insts| && IsCmp(f.blocks[b].insts[k])
    ensures SameTerminators(f, Rewritten(f, b, k, flag))
  {
    assert Terminated(f.blocks[b].insts);
  }

  lemma AlwaysRedundant(f: Func, ty: Ref -> bool, b: nat, k: nat, cond: Condition)
    requires Simplifiable(f, ty) && Invertible(f) && b < |f.blocks| && CondAt(f, b, cond) && k < |f.blocks[b].insts|
    requires IsRedundant(f, f.blocks[b].insts[k], cond).Some?
    ensures AlwaysIs(f, b, k, IsRedundant(f, f.blocks[b].insts[k], cond).value)
  {
    hide Simplifiable, Invertible, Steps, ValueAt, CondAt;
    SimplifiableValid(f, ty);
    forall o: Oracle, n: nat | Executing(f, o, n) && Steps(f, o, n).b == b
      ensures ValueAt(f, o, n, k + 1, Use(Res(b, k, 0))) == Some(Bool(IsRedundant(f, f.blocks[b].insts[k], cond).value))
    {
      RedundantHasConstant(f, ty, o, n, k, cond);
    }
  }

  lemma RunsSame(f: Func, ty: Ref -> bool, b: nat, k: nat, flag: bool)
    requires Simplifiable(f, ty) && b < |f.blocks| && k < |f.blocks[b].insts| && IsCmp(f.blocks[b].insts[k])
    requires AlwaysIs(f, b, k, flag)
    ensures SameRuns(f, Rewritten(f, b, k, flag))
  {
    hide Simplifiable, AlwaysIs, Rewritten;
    SimplifiableValid(f, ty);
    forall o: Oracle, n: nat
      ensures Seen(Steps(Rewritten(f, b, k, flag), o, n)) == Seen(Steps(f, o, n))
    {
      RewriteKeepsRuns(f, ty, b, k, flag, o, n);
    }
  }

  // ---------------------------------------------------------------- stacks

  /** The conditions above b and those that the first n predecessors in ps decide. */
  ghost predicate Pushed(f: Func, b: nat, ps: seq<nat>, n: nat, cond: Condition)
    requires f.Valid() && n <= |ps|
  {
    CondAbove(f, b, cond) || exists j :: 0 <= j < n && DecidedBy(f, ps[j], b, cond)
  }

  lemma PushedNext(f: Func, b: nat, ps: seq<nat>, n: nat, cond: Condition)
    requires f.Valid() && n < |ps|
    ensures Pushed(f, b, ps, n + 1, cond) <==> Pushed(f, b, ps, n, cond) || DecidedBy(f, ps[n], b, cond)
  {
    hide DecidedBy, CondAbove;
  }

  lemma PushedAll(f: Func, ty: Ref -> bool, b: nat, conds: seq<Condition>)
    requires Simplifiable(f, ty) && b < |f.blocks| && Reachable(f.g, b)
    requires forall c :: c in conds <==> Pushed(f, b, Preds(f.g, b), |Preds(f.g, b)|, c)
    ensures Standing(f, ty, b, conds)
  {
    hide DecidedBy, CondAbove, CondAt, Simplifiable;
    SimplifiableValid(f, ty);
    var ps := Preds(f.g, b);
    forall c
      ensures c in conds <==> CondAt(f, b, c)
    {
      CondAtSplit(f, ty, b, c);
      if start: nat :| DecidedBy(f, start, b, c) {
        InPreds(f, start, b, c);
        var j :| 0 <= j < |ps| && ps[j] == start;
        assert DecidedBy(f, ps[j], b, c);
      }
    }
  }

  lemma InPreds(f: Func, start: nat, b: nat, c: Condition)
    requires f.Valid() && DecidedBy(f, start, b, c)
    ensures start in Preds(f.g, b)
  {
    assert Edge(f.g, start, b);
  }

  lemma ArriveAtKid(f: Func, t: DomTree, ty: Ref -> bool, b: nat, i: nat, conds: seq<Condition>)
    requires Standing(f, ty, b, conds) && TreeOf(f.g, t) && i < |t.kids[b]|
    ensures Arriving(f, ty, t.kids[b][i], conds)
  {
    hide CondAt, CondAbove, Simplifiable;
    SimplifiableValid(f, ty);
    KidFacts(f.g, t, b, i);
    forall c
      ensures CondAbove(f, t.kids[b][i], c) <==> CondAt(f, b, c)
    {
      AboveKid(f, t, b, t.kids[b][i], c);
    }
  }

  lemma TermHasArg(f: Func, ty: Ref -> bool, s: nat)
    requires Simplifiable(f, ty) && s < |f.blocks|
    ensures |f.blocks[s].insts| > 0
    ensures var last := f.blocks[s].insts[|f.blocks[s].insts| - 1];
      last.op.JumpCond? || last.op.Switch? ==> |last.args| > 0
  {
    assert Terminated(f.blocks[s].insts);
    assert Shaped(f.blocks[s].insts[|f.blocks[s].insts| - 1], s, |f.blocks[s].insts| - 1, ty);
  }

  /** A comparison no stacked condition decides is settled. */
  lemma SettledNow(f: Func, ty: Ref -> bool, b: nat, k: nat, conds: seq<Condition>)
    requires Standing(f, ty, b, conds) && k < |f.blocks[b].insts|
    requires forall c :: c in conds ==> IsRedundant(f, f.blocks[b].insts[k], c).None?
    ensures f.Valid() && Settled(f, b, k)
  {
  }

  lemma SettledRewritten(f: Func, ty: Ref -> bool, b: nat, k: nat)
    requires Simplifiable(f, ty) && b < |f.blocks| && k < |f.blocks[b].insts| && !IsCmp(f.blocks[b].insts[k])
    ensures f.Valid() && Settled(f, b, k)
  {
  }

  /** The first n instructions of b are settled. */
  ghost predicate SettledTo(f: Func, b: nat, n: nat)
    requires f.Valid() && b < |f.blocks| && n <= |f.blocks[b].insts|
  {
    forall k: nat :: k < n ==> Settled(f, b, k)
  }

  lemma SettledNext(f: Func, g: Func, ty: Ref -> bool, b: nat, k: nat)
    requires Simplifiable(f, ty) && Refines(f, g, ty) && b < |f.blocks| && Reachable(f.g, b) && k < |f.blocks[b].insts|
    requires SameBut(f, g, b, k) && SettledTo(f, b, k) && g.Valid() && Settled(g, b, k)
    ensures SettledTo(g, b, k + 1)
  {
    hide Simplifiable, Settled, Invertible, SameRuns, OnlyConstants, Folded;
    forall m: nat | m < k
      ensures Settled(g, b, m)
    {
      SettledBefore(f, g, ty, b, k, m);
    }
  }

  lemma SettledBlock(f: Func, b: nat)
    requires f.Valid() && b < |f.blocks| && SettledTo(f, b, |f.blocks[b].insts|)
    ensures AllSettled(f, {b})
  {
    hide Settled;
  }

  lemma SettledKids(f: Func, t: DomTree, b: nat, i: nat)
    requires f.Valid() && b < |t.kids| && i < |t.kids[b]|
    requires AllSettled(f, Kids(f.g, t, b, i)) && AllSettled(f, Subtree(f.g, t.kids[b][i]))
    ensures AllSettled(f, Kids(f.g, t, b, i + 1))
  {
    hide Settled;
  }

  lemma OutsideTrans(f: Func, g: Func, h: Func, g0: Graph, t: DomTree, b: nat, i: nat)
    requires g0.Valid() && TreeOf(g0, t) && b < |g0.succs| && i < |t.kids[b]|
    requires SameOutside(f, g, Subtree(g0, b)) && SameOutside(g, h, Subtree(g0, t.kids[b][i]))
    ensures SameOutside(f, h, Subtree(g0, b))
  {
    hide TreeOf, Subtree;
    KidFacts(g0, t, b, i);
  }

  lemma OutsideBlock(f: Func, g: Func, h: Func, g0: Graph, b: nat)
    requires Reachable(g0, b) && b < |g0.succs|
    requires SameOutside(f, g, Subtree(g0, b)) && SameOutside(g, h, {b})
    ensures SameOutside(f, h, Subtree(g0, b))
  {
    hide Subtree;
    SelfInSubtree(g0, b);
  }

  // ---------------------------------------------------------------- steps of the traversal

  /** The first k instructions of b have been visited. */
  ghost predicate Visiting(f0: Func, f: Func, ty: Ref -> bool, b: nat, conds: seq<Condition>, k: nat) {
    && Refines(f0, f, ty) && Standing(f, ty, b, conds) && f.Valid() && f.g == f0.g
    && k <= |f.blocks[b].insts| && SettledTo(f, b, k) && SameOutside(f0, f, Subtree(f.g, b))
  }

  /** Block b and the subtrees of its first i children have been simplified. */
  ghost predicate Descending(f0: Func, f: Func, ty: Ref -> bool, t: DomTree, b: nat, conds: seq<Condition>, i: nat) {
    && Refines(f0, f, ty) && Standing(f, ty, b, conds) && f.Valid() && f.g == f0.g && TreeOf(f.g, t)
    && b < |t.kids| && i <= |t.kids[b]| && AllSettled(f, Kids(f.g, t, b, i)) && SameOutside(f0, f, Subtree(f.g, b))
  }

  lemma StartVisits(f: Func, ty: Ref -> bool, b: nat, conds: seq<Condition>)
    requires Standing(f, ty, b, conds)
    ensures Visiting(f, f, ty, b, conds, 0) && f.Valid() && b < |f.blocks|
  {
    hide Simplifiable, CondAt, Refines, Subtree;
    SimplifiableValid(f, ty);
    RefinesRefl(f, ty);
  }

  lemma NextVisit(f0: Func, f1: Func, f: Func, ty: Ref -> bool, b: nat, conds: seq<Condition>, k: nat)
    requires Visiting(f0, f1, ty, b, conds, k) && Refines(f1, f, ty) && Standing(f, ty, b, conds)
    requires k < |f1.blocks[b].insts| && SameBut(f1, f, b, k) && SameOutside(f1, f, {b})
    requires f.Valid() && Settled(f, b, k)
    ensures Visiting(f0, f, ty, b, conds, k + 1) && f.g == f1.g
    ensures b < |f.blocks| && |f.blocks[b].insts| == |f1.blocks[b].insts|
  {
    hide Simplifiable, CondAt, Refines, Subtree, SameBut, SameOutside, SettledTo, Settled, IsRedundant, Func.Valid;
    RefinesShape(f1, f, ty, b);
    RefinesTrans(f0, f1, f, ty);
    SettledNext(f1, f, ty, b, k);
    OutsideBlock(f0, f1, f, f.g, b);
  }

  lemma RefinesShape(f: Func, g: Func, ty: Ref -> bool, b: nat)
    requires Refines(f, g, ty) && b < |f.blocks|
    ensures g.g == f.g && |g.blocks| == |f.blocks| && |g.blocks[b].insts| == |f.blocks[b].insts|
    ensures SameTerminators(f, g) && Simplifiable(g, ty)
  {
    hide Simplifiable, Invertible, SameRuns, OnlyConstants, Folded;
  }

  lemma EndVisits(f0: Func, f: Func, ty: Ref -> bool, t: DomTree, b: nat, conds: seq<Condition>)
    requires f.Valid() && b < |f.blocks| && Visiting(f0, f, ty, b, conds, |f.blocks[b].insts|) && TreeOf(f.g, t)
    ensures Descending(f0, f, ty, t, b, conds, 0) && b < |t.kids|
  {
    hide Simplifiable, CondAt, Refines, Subtree, SameOutside, SettledTo, AllSettled, TreeOf;
    SettledBlock(f, b);
    KidsInRange(f.g, t, b);
  }

  lemma NextKid(f0: Func, f1: Func, f: Func, ty: Ref -> bool, t: DomTree, b: nat, conds: seq<Condition>, i: nat)
    requires Descending(f0, f1, ty, t, b, conds, i) && i < |t.kids[b]| && Refines(f1, f, ty)
    requires f.g == f1.g && SameOutside(f1, f, Subtree(f.g, t.kids[b][i]))
    requires f.Valid() && AllSettled(f, Subtree(f.g, t.kids[b][i]))
    ensures Descending(f0, f, ty, t, b, conds, i + 1) && Standing(f, ty, b, conds)
  {
    hide Simplifiable, CondAt, Refines, Subtree, SameOutside, AllSettled, TreeOf, SameTerminators;
    KidFacts(f.g, t, b, i);
    RefinesShape(f1, f, ty, b);
    RefinesTrans(f0, f1, f, ty);
    StandsAfter(f1, f, ty, b, conds);
    SettledOutside(f1, f, ty, Kids(f.g, t, b, i), t.kids[b][i]);
    SettledKids(f, t, b, i);
    OutsideTrans(f0, f1, f, f.g, t, b, i);
  }

  lemma EndKids(f0: Func, f: Func, ty: Ref -> bool, t: DomTree, b: nat, conds: seq<Condition>)
    requires b < |t.kids| && Descending(f0, f, ty, t, b, conds, |t.kids[b]|)
    ensures Refines(f0, f, ty) && SameOutside(f0, f, Subtree(f.g, b)) && f.Valid() && AllSettled(f, Subtree(f.g, b))
  {
    hide Simplifiable, CondAt, Refines, Subtree, SameOutside, AllSettled, TreeOf;
    KidsAreSubtree(f.g, t, b);
  }

  // ---------------------------------------------------------------- the pass

  /** The ith condition is the first one that decides the comparison. */
  predicate DecidesFirst(f: Func, cmp: Inst, conds: seq<Condition>, i: nat)
    requires i < |conds|
  {
    IsRedundant(f, cmp, conds[i]).Some? && forall j :: 0 <= j < i ==> IsRedundant(f, cmp, conds[j]).None?
  }

  class CondSimplifier {
    /** The function, rewritten in place. */
    var f: Func
    const t: DomTree
    ghost const ty: Ref -> bool
    /** The stack of conditions. */
    var conds: seq<Condition>

    constructor (f: Func, t: DomTree, ghost ty: Ref -> bool)
      ensures this.f == f && this.t == t && this.ty == ty && conds == []
    {
      this.f, this.t, this.ty, conds := f, t, ty, [];
    }

    /** Rewrites a comparison if a stacked condition decides it. */
    method VisitInst(b: nat, k: nat)
      requires Standing(f, ty, b, conds) && k < |f.blocks[b].insts|
      modifies this`f
      ensures Refines(old(f), f, ty) && Standing(f, ty, b, conds)
      ensures SameBut(old(f), f, b, k) && SameOutside(old(f), f, {b}) && f.Valid() && Settled(f, b, k)
      ensures (forall i :: 0 <= i < |conds| ==> IsRedundant(old(f), old(f).blocks[b].insts[k], conds[i]).None?) ==>
        f == old(f)
      ensures forall i | 0 <= i < |conds| && DecidesFirst(old(f), old(f).blocks[b].insts[k], conds, i) ::
        f == Rewritten(old(f), b, k, IsRedundant(old(f), old(f).blocks[b].insts[k], conds[i]).value)
    {
      hide Simplifiable, Invertible, SameRuns, IsRedundant, Rewritten, CondAt, Settled, OnlyConstants, Folded;
      RefinesRefl(f, ty);
      var cmp := f.blocks[b].insts[k];
      for i := 0 to |conds|
        invariant f == old(f)
        invariant forall j :: 0 <= j < i ==> IsRedundant(f, cmp, conds[j]).None?
      {
        var flag := IsRedundant(f, cmp, conds[i]);
        if flag.Some? {
          ghost var g := Rewritten(f, b, k, flag.value);
          RewriteRefines(f, ty, b, k, conds, conds[i]);
          OnlyCmpRedundant(f, cmp, conds[i]);
          RewritesOne(f, b, k, flag.value);
          StandsAfter(f, g, ty, b, conds);
          SettledRewritten(g, ty, b, k);
          f := Rewritten(f, b, k, flag.value);
          return;
        }
      }
      SettledNow(f, ty, b, k, conds);
    }

    /** Pushes the conditions decided on the dominating edges that end at b. */
    method PushConds(b: nat)
      requires Arriving(f, ty, b, conds) && TreeOf(f.g, t)
      modifies this`conds
      ensures Standing(f, ty, b, conds) && old(conds) <= conds
    {
      hide Simplifiable, TreeOf, CondAbove, OthersBehind, Pushed, DecidedBy;
      SimplifiableValid(f, ty);
      var preds := Preds(f.g, b);
      PushedNone(f, b, preds);
      for i := 0 to |preds|
        invariant old(conds) <= conds
        invariant forall c :: c in conds <==> Pushed(f, b, preds, i, c)
      {
        var start := preds[i];
        ghost var conds0 := conds;
        assert Edge(f.g, start, b);
        var dominates := IsDominatorEdge(f.g, t, start, b);
        TermHasArg(f, ty, start);
        EdgeInRange(f, start, b);
        DecidedExactly(f, start, b, dominates);
        if dominates {
          var last := f.blocks[start].insts[|f.blocks[start].insts| - 1];
          var index := First(f.g.succs[start], b);
          if last.op.JumpCond? {
            conds := conds + [JumpCondition(last.args[0], index == 0)];
          } else if last.op.Switch? {
            // The constructor for switches builds a jump condition from the index.
            conds := conds + [JumpCondition(last.args[0], index != 0)];
          }
        }
        forall c
          ensures c in conds <==> Pushed(f, b, preds, i + 1, c)
        {
          PushedNext(f, b, preds, i, c);
          assert c in conds <==> c in conds0 || DecidedBy(f, start, b, c);
        }
      }
      PushedAll(f, ty, b, conds);
    }

    /** Simplifies block b and the blocks below it; the stack of conditions is restored. */
    method Traverse(b: nat)
      requires Arriving(f, ty, b, conds) && TreeOf(f.g, t)
      modifies this
      ensures Refines(old(f), f, ty) && conds == old(conds)
      ensures f.g == old(f).g && SameOutside(old(f), f, Subtree(f.g, b))
      ensures f.Valid() && AllSettled(f, Subtree(f.g, b))
      decreases Subtree(f.g, b)
    {
      hide Refines, Standing, Arriving, Visiting, Descending, TreeOf, Subtree, Kids, Settled, AllSettled, SameOutside,
        SameBut, DecidesFirst, IsRedundant;
      ghost var f0 := f;
      var restore := |conds|;
      PushConds(b);
      ghost var pushed := conds;
      StartVisits(f, ty, b, conds);
      var n := |f.blocks[b].insts|;
      for k := 0 to n
        invariant Visiting(f0, f, ty, b, conds, k) && Standing(f, ty, b, conds) && conds == pushed
        invariant f.g == f0.g && f.Valid() && b < |f.blocks| && |f.blocks[b].insts| == n
      {
        ghost var f1 := f;
        VisitInst(b, k);
        NextVisit(f0, f1, f, ty, b, conds, k);
      }
      EndVisits(f0, f, ty, t, b, conds);
      for i := 0 to |t.kids[b]|
        invariant Descending(f0, f, ty, t, b, conds, i) && Standing(f, ty, b, conds) && conds == pushed
        invariant f.g == f0.g && f.Valid()
      {
        ghost var f1 := f;
        KidFacts(f.g, t, b, i);
        ArriveAtKid(f, t, ty, b, i, conds);
        Traverse(t.kids[b][i]);
        NextKid(f0, f1, f, ty, t, b, conds, i);
      }
      EndKids(f0, f, ty, t, b, conds);
      conds := conds[..restore];
    }
  }

  lemma OnlyCmpRedundant(f: Func, cmp: Inst, cond: Condition)
    requires IsRedundant(f, cmp, cond).Some?
    ensures IsCmp(cmp)
  {
  }

  lemma EdgeInRange(f: Func, start: nat, b: nat)
    requires f.Valid() && Edge(f.g, start, b)
    ensures start < |f.blocks|
  {
  }

  /** What the terminator of start decides about b. */
  lemma DecidedExactly(f: Func, start: nat, b: nat, dominates: bool)
    requires f.Valid() && Edge(f.g, start, b) && start < |f.blocks| && |f.blocks[start].insts| > 0
    requires dominates <==> Count(f.g.succs[start], b) == 1 && OthersBehind(f.g, start, b)
    requires var last := f.blocks[start].insts[|f.blocks[start].insts| - 1];
      last.op.JumpCond? || last.op.Switch? ==> |last.args| > 0
    ensures var last := f.blocks[start].insts[|f.blocks[start].insts| - 1];
      var index := First(f.g.succs[start], b);
      forall c :: DecidedBy(f, start, b, c) <==>
        && dominates && (last.op.JumpCond? || last.op.Switch?)
        && c == JumpCondition(last.args[0], if last.op.JumpCond? then index == 0 else index != 0)
  {
    hide OthersBehind;
  }

  lemma PushedNone(f: Func, b: nat, ps: seq<nat>)
    requires f.Valid()
    ensures forall c :: Pushed(f, b, ps, 0, c) <==> CondAbove(f, b, c)
  {
    hide CondAbove;
  }

  lemma KidsInRange(g: Graph, t: DomTree, b: nat)
    requires TreeOf(g, t) && b < |g.succs|
    ensures |t.kids| == |g.succs| && Kids(g, t, b, 0) == {b}
  {
  }

  lemma EverythingBelowEntry(f: Func)
    requires f.Valid() && AllSettled(f, Subtree(f.g, 0))
    ensures forall b: nat, k: nat :: b < |f.blocks| && Reachable(f.g, b) && k < |f.blocks[b].insts| ==> Settled(f, b, k)
  {
    hide Settled;
    EntryReachable(f.g);
  }

  /** The pass on one function: comparisons are replaced by constants, no run changes if the
      function is invertible, and no condition that holds in a block decides a comparison that remains in it. */
  method Simplify(f: Func, t: DomTree, ghost ty: Ref -> bool) returns (g: Func)
    requires Simplifiable(f, ty) && TreeOf(f.g, t)
    ensures Simplifiable(g, ty) && SameTerminators(f, g) && OnlyConstants(f, g) && Folded(f, g)
    ensures f.Valid() && (Invertible(f) ==> SameRuns(f, g))
    ensures forall b: nat, k: nat :: b < |g.blocks| && Reachable(g.g, b) && k < |g.blocks[b].insts| ==> Settled(g, b, k)
    ensures forall b: nat, k: nat, flag: bool :: b < |g.blocks| && Reachable(g.g, b) ==> !Decided(g, b, k, flag)
  {
    hide Simplifiable, Invertible, SameRuns, CondAbove, OnlyConstants, SameOutside, AllSettled, Settled, TreeOf, Folded;
    SimplifiableValid(f, ty);
    EntryReachable(f.g);
    var simplifier := new CondSimplifier(f, t, ty);
    forall c
      ensures !CondAbove(f, 0, c)
    {
      NothingAboveEntry(f, c);
    }
    simplifier.Traverse(0);
    g := simplifier.f;
    EverythingBelowEntry(g);
    NothingDecided(g);
  }

  /** No comparison is left that another one decides. */
  lemma NothingDecided(g: Func)
    requires g.Valid()
    requires forall b: nat, k: nat ::
      b < |g.blocks| && Reachable(g.g, b) && k < |g.blocks[b].insts| ==> Settled(g, b, k)
    ensures forall b: nat, k: nat, flag: bool :: b < |g.blocks| && Reachable(g.g, b) ==> !Decided(g, b, k, flag)
  {
    hide CondAt, IsRedundant, Reachable, Followed;
    forall b: nat, k: nat, flag: bool | b < |g.blocks| && Reachable(g.g, b)
      ensures !Decided(g, b, k, flag)
    {
      if k < |g.blocks[b].insts| {
        assert Settled(g, b, k);
        DecidedExact(g, b, k, flag);
      }
    }
  }
}
