/** The function whose cells are registers can be promoted, and what is promoted from it is a
    well-formed program again (passes/mem_to_reg.cpp). */
module CellView {
  import opened Cfg
  import opened DeadPhis
  import opened Options
  import opened Ssa
  import opened SsaForm
  import opened CellFind
  import opened CellBytes
  import opened CellMemory
  import opened CellPromotion
  import opened CellRewrite
  import opened CellSimulation

  // ---------------------------------------------------------------- the cells in SSA form

  lemma SplitForm(s: Split)
    requires s.Ok()
    ensures s.f.Valid() && EntryHasNoPreds(s.f.g) && s.f.blocks[0].phis == map[] && DefsDominateUses(s.f)
  {
  }

  lemma FreshPhis(s: Split, b: nat, id: nat)
    requires s.Ok() && b < |s.f.blocks| && id in s.f.blocks[b].phis
    ensures id < s.base
  {
  }

  /** Operands name no PHI of a cell and no store to it. */
  lemma OperandNotCell(s: Split, c: nat, a: Operand)
    requires s.Ok() && c >= s.base && SsaOperand(s.f, a)
    ensures NotCell(ViewFunc(s.f, s.uses, s.base), c, a) && !a.VReg?
  {
    hide Split.Ok, Shaped;
    if a.Use? {
      if a.r.Phi? {
        FreshPhis(s, a.r.b, a.r.id);
      } else {
        ViewAt(s.f, s.uses, s.base, a.r.b, a.r.k);
        SplitInst(s, a.r.b, a.r.k);
        FreshResults(s, a.r.b, a.r.k, c - s.base);
        ResultNotStore(s, a.r.b, a.r.k);
      }
    }
  }

  lemma ResultNotStore(s: Split, b: nat, k: nat)
    requires InFunc(s.f, ByInst(b, k)) && Shaped(s.f.blocks[b].insts[k]) && s.f.blocks[b].insts[k].rets != []
    ensures ViewInst(s.uses, s.base, b, k, s.f.blocks[b].insts[k]).rets == s.f.blocks[b].insts[k].rets
  {
  }

  lemma ViewCellInst(s: Split, c: nat, b: nat, k: nat)
    requires s.Ok() && c >= s.base && InFunc(s.f, ByInst(b, k))
    ensures CellInst(ViewInst(s.uses, s.base, b, k, s.f.blocks[b].insts[k]), c)
    ensures forall a :: a in ViewInst(s.uses, s.base, b, k, s.f.blocks[b].insts[k]).args ==>
      NotCell(ViewFunc(s.f, s.uses, s.base), c, a)
  {
    hide Split.Ok, NotCell, SsaOperand, ViewFunc;
    var inst := s.f.blocks[b].insts[k];
    SplitInst(s, b, k);
    FreshResults(s, b, k, c - s.base);
    forall j | 0 <= j < |inst.args|
      ensures NotCell(ViewFunc(s.f, s.uses, s.base), c, inst.args[j]) && !inst.args[j].VReg?
    {
      OperandNotCell(s, c, inst.args[j]);
    }
    VRegNotCell(s, c);
    assert forall j :: 0 <= j < |inst.args| ==> inst.args[j] in inst.args;
    assert VReg(c) !in inst.args;
  }

  lemma VRegNotCell(s: Split, c: nat)
    ensures forall v: nat :: NotCell(ViewFunc(s.f, s.uses, s.base), c, VReg(v))
  {
  }

  lemma ViewCellBlock(s: Split, c: nat, b: nat)
    requires s.Ok() && c >= s.base && b < |s.f.blocks|
    ensures |ViewFunc(s.f, s.uses, s.base).blocks| == |s.f.blocks| && CellBlock(ViewFunc(s.f, s.uses, s.base), c, b)
  {
    hide Split.Ok, CellInst, NotCell, ViewFunc, ViewInst;
    var g := ViewFunc(s.f, s.uses, s.base);
    ViewShape(s.f, s.uses, s.base);
    forall k: nat | k < |g.blocks[b].insts|
      ensures CellInst(g.blocks[b].insts[k], c)
      ensures forall j: nat :: j < |g.blocks[b].insts[k].args| ==> NotCell(g, c, g.blocks[b].insts[k].args[j])
    {
      ViewAt(s.f, s.uses, s.base, b, k);
      ViewCellInst(s, c, b, k);
    }
    if c in s.f.blocks[b].phis {
      FreshPhis(s, b, c);
    }
    forall id, p | id in g.blocks[b].phis && p in g.blocks[b].phis[id]
      ensures NotCell(g, c, g.blocks[b].phis[id][p]) && !g.blocks[b].phis[id][p].VReg?
    {
      PhiOperandOk(s, b, id, p);
      OperandNotCell(s, c, g.blocks[b].phis[id][p]);
    }
  }

  lemma ViewOperandOk(f: Func, uses: map<User, (int, nat)>, base: nat, a: Operand, b: nat, k: nat)
    ensures OperandOk(ViewFunc(f, uses, base), a, b, k) <==> OperandOk(f, a, b, k)
  {
    hide Dom;
    ViewShape(f, uses, base);
  }

  lemma ViewDominates(f: Func, uses: map<User, (int, nat)>, base: nat)
    requires f.Valid() && DefsDominateUses(f)
    ensures ViewFunc(f, uses, base).Valid() && DefsDominateUses(ViewFunc(f, uses, base))
  {
    hide Dom, OperandOk, ViewFunc;
    var g := ViewFunc(f, uses, base);
    ViewShape(f, uses, base);
    forall b: nat | b < |g.blocks| && Reachable(g.g, b)
      ensures BlockOk(g, b)
    {
      assert BlockOk(f, b);
      forall k | 0 <= k < |g.blocks[b].insts|
        ensures InstOk(g, b, k)
      {
        assert InstOk(f, b, k);
        ViewAt(f, uses, base, b, k);
        forall j | 0 <= j < |g.blocks[b].insts[k].args|
          ensures OperandOk(g, g.blocks[b].insts[k].args[j], b, k)
        {
          ViewOperandOk(f, uses, base, g.blocks[b].insts[k].args[j], b, k);
          CellOperandOk(g, b, k, CellOf(base, if ByInst(b, k) in uses then uses[ByInst(b, k)].0 else 0));
        }
      }
      forall i | 0 <= i < |g.g.succs[b]|
        ensures EdgeOk(g, b, g.g.succs[b][i])
      {
        assert EdgeOk(f, b, f.g.succs[b][i]);
        ViewEdgeOk(f, uses, base, b, f.g.succs[b][i]);
      }
    }
  }

  lemma CellOperandOk(g: Func, b: nat, k: nat, c: nat)
    ensures OperandOk(g, VReg(c), b, k)
  {
  }

  lemma ViewEdgeOk(f: Func, uses: map<User, (int, nat)>, base: nat, b: nat, c: nat)
    requires b < |f.blocks| && c < |f.blocks| && EdgeOk(f, b, c)
    ensures var g := ViewFunc(f, uses, base); b < |g.blocks| && c < |g.blocks| && EdgeOk(g, b, c)
  {
    hide Dom, OperandOk, ViewFunc;
    var g := ViewFunc(f, uses, base);
    ViewShape(f, uses, base);
    forall id | id in g.blocks[c].phis
      ensures PhiOk(g, b, c, id)
    {
      assert PhiOk(f, b, c, id);
      ViewOperandOk(f, uses, base, g.blocks[c].phis[id][b], b, |g.blocks[b].insts|);
    }
  }

  /** The function whose cells are registers can be promoted. */
  lemma ViewIsCellForm(s: Split, c: nat)
    requires s.Ok() && c >= s.base
    ensures CellForm(ViewFunc(s.f, s.uses, s.base), c)
  {
    hide Split.Ok, ViewFunc, DefsDominateUses, CellBlock;
    SplitForm(s);
    ViewShape(s.f, s.uses, s.base);
    ViewDominates(s.f, s.uses, s.base);
    forall b: nat | b < |s.f.blocks|
      ensures CellBlock(ViewFunc(s.f, s.uses, s.base), c, b)
    {
      ViewCellBlock(s, c, b);
    }
  }

  /** The operands of the view name results and immediates, or the cells. */
  lemma ViewComplete(s: Split, cells: set<nat>)
    requires s.Ok() && s.f.Valid() && Complete(s.f)
    requires forall u :: u in s.uses ==> CellOf(s.base, s.uses[u].0) in cells
    ensures ViewFunc(s.f, s.uses, s.base).Valid() && CompleteBut(ViewFunc(s.f, s.uses, s.base), cells)
  {
    hide Split.Ok, ViewFunc, CompleteArg, Shaped;
    var f, g := s.f, ViewFunc(s.f, s.uses, s.base);
    ViewShape(f, s.uses, s.base);
    forall b: nat | b < |g.blocks| && Reachable(g.g, b)
      ensures CompleteBlockBut(g, cells, b)
    {
      assert CompleteBlock(f, b);
      forall k: nat, j: nat | k < |g.blocks[b].insts| && j < |g.blocks[b].insts[k].args|
        ensures CompleteOrCell(g, cells, g.blocks[b].insts[k], g.blocks[b].insts[k].args[j])
      {
        ViewAt(f, s.uses, s.base, b, k);
        ViewArgComplete(s, cells, b, k, j);
      }
      forall id, p: nat | id in g.blocks[b].phis && p in g.blocks[b].phis[id] && IsPred(g.g, p, b)
        ensures CompleteArg(g, g.blocks[b].phis[id][p]) || g.blocks[b].phis[id][p] == Undef
      {
        PhiOperandOk(s, b, id, p);
        assert IsPred(f.g, p, b);
        if f.blocks[b].phis[id][p] != Undef {
          ViewResult(s, f.blocks[b].phis[id][p]);
        }
      }
    }
  }

  /** What names a result in the source names one in the view. */
  lemma ViewResult(s: Split, a: Operand)
    requires s.Ok() && SsaOperand(s.f, a) && CompleteArg(s.f, a)
    ensures CompleteArg(ViewFunc(s.f, s.uses, s.base), a)
  {
    hide Split.Ok, ViewFunc, Shaped;
    ViewShape(s.f, s.uses, s.base);
    if a.Use? && a.r.Res? {
      ViewAt(s.f, s.uses, s.base, a.r.b, a.r.k);
      SplitInst(s, a.r.b, a.r.k);
      ResultNotStore(s, a.r.b, a.r.k);
    }
  }

  lemma ViewArgComplete(s: Split, cells: set<nat>, b: nat, k: nat, j: nat)
    requires s.Ok() && s.f.Valid() && InFunc(s.f, ByInst(b, k)) && CompleteBlock(s.f, b)
    requires forall u :: u in s.uses ==> CellOf(s.base, s.uses[u].0) in cells
    requires j < |ViewInst(s.uses, s.base, b, k, s.f.blocks[b].insts[k]).args|
    ensures var inst := ViewInst(s.uses, s.base, b, k, s.f.blocks[b].insts[k]);
      CompleteOrCell(ViewFunc(s.f, s.uses, s.base), cells, inst, inst.args[j])
  {
    hide Split.Ok, ViewFunc, CompleteArg, SsaOperand;
    var inst, inst' := s.f.blocks[b].insts[k], ViewInst(s.uses, s.base, b, k, s.f.blocks[b].insts[k]);
    SplitInst(s, b, k);
    forall i: nat | i < |inst.args| && CompleteArg(s.f, inst.args[i])
      ensures CompleteArg(ViewFunc(s.f, s.uses, s.base), inst.args[i])
    {
      ViewResult(s, inst.args[i]);
    }
    if ByInst(b, k) in s.uses {
      var y := UseIsAccess(s, ByInst(b, k));
    }
  }

  // ---------------------------------------------------------------- blocks that are never run

  /** The rewriting never gets to blocks that cannot be reached: they keep their accesses. */
  function KeepUnreached(f: Func, g: Func, t: DomTree): (h: Func)
    requires |g.blocks| == |f.blocks|
    ensures h.g == g.g && |h.blocks| == |f.blocks|
  {
    g.(blocks := seq(|f.blocks|, b requires 0 <= b < |f.blocks| =>
      if b == 0 || b in t.idom then g.blocks[b] else f.blocks[b]))
  }

  /** Both functions have the same reachable blocks. */
  ghost predicate SameReached(g: Func, h: Func) {
    && h.g == g.g && |h.blocks| == |g.blocks|
    && forall b: nat :: b < |g.blocks| && Reachable(g.g, b) ==> h.blocks[b] == g.blocks[b]
  }

  lemma UnreachedKept(f: Func, g: Func, t: DomTree)
    requires f.Valid() && g.Valid() && g.g == f.g && TreeOf(f.g, t) && |g.blocks| == |f.blocks|
    ensures var h := KeepUnreached(f, g, t);
      && h.Valid() && SameReached(g, h)
      && forall b: nat :: b < |f.blocks| && !Reachable(f.g, b) ==> h.blocks[b] == f.blocks[b]
  {
    EntryReachable(f.g);
  }

  lemma {:induction false} SameExec(g: Func, h: Func, o: Oracle, b: nat, k: nat, e: Env, log: seq<Event>)
    requires b < |g.blocks| && b < |h.blocks| && h.blocks[b] == g.blocks[b] && k <= |g.blocks[b].insts|
    ensures Exec(h, o, b, k, e, log) == Exec(g, o, b, k, e, log)
  {
    if k > 0 {
      SameExec(g, h, o, b, k - 1, e, log);
    }
  }

  lemma {:induction false} SameSteps(g: Func, h: Func, o: Oracle, n: nat)
    requires g.Valid() && h.Valid() && SameReached(g, h)
    ensures Steps(h, o, n) == Steps(g, o, n)
    ensures Steps(g, o, n).At? ==> Steps(g, o, n).b < |g.blocks| && Reachable(g.g, Steps(g, o, n).b)
  {
    hide Steps, Step, SameReached, Reachable;
    StepsNext(g, o, 0);
    StepsNext(h, o, 0);
    if n == 0 {
      EntryReachable(g.g);
    } else {
      SameSteps(g, h, o, n - 1);
      StepsNext(g, o, n - 1);
      StepsNext(h, o, n - 1);
      SameStep(g, h, o, Steps(g, o, n - 1));
    }
  }

  lemma SameStep(g: Func, h: Func, o: Oracle, s: State)
    requires g.Valid() && h.Valid() && SameReached(g, h)
    requires s.At? ==> s.b < |g.blocks| && Reachable(g.g, s.b)
    ensures Step(h, o, s) == Step(g, o, s)
    ensures Step(g, o, s).At? ==> Step(g, o, s).b < |g.blocks| && Reachable(g.g, Step(g, o, s).b)
  {
    hide Exec, Reachable, EnterPhis, Target;
    if s.At? {
      SameExec(g, h, o, s.b, |g.blocks[s.b].insts|, s.e, s.log);
      var u := Step(g, o, s);
      if u.At? {
        assert Edge(g.g, s.b, u.b);
        EdgeReachable(g.g, s.b, u.b);
      }
    }
  }

  /** Blocks that are never run do not matter. */
  lemma SameReachedMeans(g: Func, h: Func)
    requires g.Valid() && h.Valid() && SameReached(g, h)
    ensures SameMeaning(g, h)
  {
    hide Steps, Exec, SameReached;
    forall o: Oracle, n: nat
      ensures Seen(Steps(h, o, n)) == Seen(Steps(g, o, n))
    {
      SameSteps(g, h, o, n);
    }
    forall o: Oracle, n: nat, k: nat
      ensures ReadsAlike(g, h, o, n, k)
    {
      ReachedReads(g, h, o, n, k);
    }
  }

  lemma ReachedReads(g: Func, h: Func, o: Oracle, n: nat, k: nat)
    requires g.Valid() && h.Valid() && SameReached(g, h)
    ensures ReadsAlike(g, h, o, n, k)
  {
    hide Steps, Exec, Reachable;
    SameSteps(g, h, o, n);
    var s := Steps(g, o, n);
    if s.At? && k <= |g.blocks[s.b].insts| {
      SameExec(g, h, o, s.b, k, s.e, s.log);
    }
  }

  lemma SameAccesses(g: Func, h: Func, c: nat)
    requires SameReached(g, h) && NoAccess(g, c)
    ensures NoAccess(h, c)
  {
  }

  // ---------------------------------------------------------------- the result is well-formed

  /** What f, its view, the promoted view g and the result h have to do with each other. */
  ghost predicate Promotion(s: Split, cells: set<nat>, g: Func, h: Func) {
    && s.Ok() && s.f.Valid() && g.Valid() && h.Valid() && DefsDominateUses(g) && Complete(g)
    && Grown(ViewFunc(s.f, s.uses, s.base), g, cells) && (forall c :: c in cells ==> c >= s.base)
    && SameReached(g, h) && |g.blocks| == |s.f.blocks| && g.g == s.f.g
    && forall b: nat :: b < |s.f.blocks| && !Reachable(s.f.g, b) ==> h.blocks[b] == s.f.blocks[b]
  }

  lemma PromotionParts(s: Split, cells: set<nat>, g: Func, h: Func, b: nat)
    requires Promotion(s, cells, g, h) && b < |s.f.blocks|
    ensures s.Ok() && s.f.Valid() && g.Valid() && h.Valid() && DefsDominateUses(g) && Complete(g)
    ensures |h.blocks| == |g.blocks| == |s.f.blocks| && h.g == g.g == s.f.g
    ensures b < |ViewFunc(s.f, s.uses, s.base).blocks|
    ensures GrownBlock(s.f.g, b, ViewFunc(s.f, s.uses, s.base).blocks[b], g.blocks[b], cells)
    ensures h.blocks[b] == if Reachable(s.f.g, b) then g.blocks[b] else s.f.blocks[b]
    ensures forall c :: c in cells ==> c >= s.base
  {
    hide DefsDominateUses, Complete, GrownBlock, Split.Ok, Reachable;
    ViewShape(s.f, s.uses, s.base);
  }

  /** Every result is still there. */
  lemma ResultKept(s: Split, cells: set<nat>, g: Func, h: Func, r: Ref)
    requires Promotion(s, cells, g, h) && IsResult(s.f, r)
    ensures IsResult(h, r)
  {
    hide Promotion, Split.Ok, ViewFunc, ViewInst, Shaped, Reachable, IsPred, DefsDominateUses, Complete;
    PromotionParts(s, cells, g, h, r.b);
    ViewShape(s.f, s.uses, s.base);
    if r.Res? && Reachable(s.f.g, r.b) {
      ViewAt(s.f, s.uses, s.base, r.b, r.k);
      SplitInst(s, r.b, r.k);
      ResultNotStore(s, r.b, r.k);
      var rets := s.f.blocks[r.b].insts[r.k].rets;
      assert SameShape(ViewFunc(s.f, s.uses, s.base).blocks[r.b].insts[r.k], g.blocks[r.b].insts[r.k], cells);
      if rets[0] in cells {
        FreshResults(s, r.b, r.k, rets[0] - s.base);
      }
    }
  }

  lemma OperandKept(s: Split, cells: set<nat>, g: Func, h: Func, a: Operand)
    requires Promotion(s, cells, g, h) && SsaOperand(s.f, a)
    ensures SsaOperand(h, a)
  {
    hide Promotion;
    if a.Use? {
      ResultKept(s, cells, g, h, a.r);
    }
  }

  /** An operand of the promoted function that is available at a reachable point. */
  lemma OperandThere(s: Split, cells: set<nat>, g: Func, h: Func, a: Operand, b: nat, k: nat)
    requires Promotion(s, cells, g, h) && b < |s.f.blocks| && Reachable(s.f.g, b)
    requires OperandOk(g, a, b, k) && (CompleteArg(g, a) || a == Undef)
    ensures SsaOperand(h, a)
  {
    hide Promotion, Dom, Reachable, DefsDominateUses, Complete, GrownBlock;
    PromotionParts(s, cells, g, h, b);
    if a.Use? {
      if a.r.b != b {
        DomIsReachable(g.g, a.r.b, b);
      }
      PromotionParts(s, cells, g, h, a.r.b);
    }
  }

  lemma ShapedStays(inst: Inst, inst': Inst, cells: set<nat>)
    requires Shaped(inst) && SameShape(inst, inst', cells)
    ensures Shaped(inst')
  {
  }

  lemma ViewShaped(s: Split, b: nat, k: nat)
    requires s.Ok() && InFunc(s.f, ByInst(b, k))
    ensures Shaped(ViewInst(s.uses, s.base, b, k, s.f.blocks[b].insts[k]))
  {
    hide Split.Ok, CellOf, Users, Derived;
    SplitInst(s, b, k);
    if ByInst(b, k) in s.uses {
      var y := UseIsAccess(s, ByInst(b, k));
    }
  }

  lemma ReachedInst(s: Split, cells: set<nat>, g: Func, h: Func, b: nat, k: nat)
    requires Promotion(s, cells, g, h) && b < |s.f.blocks| && Reachable(s.f.g, b) && InFunc(h, ByInst(b, k))
    ensures SsaInst(h, b, k)
  {
    hide Promotion, Split.Ok, ViewFunc, ViewInst, Shaped, Reachable, IsPred, DefsDominateUses, Complete, SsaOperand,
      OperandOk, CompleteArg;
    PromotionParts(s, cells, g, h, b);
    ViewShape(s.f, s.uses, s.base);
    ViewAt(s.f, s.uses, s.base, b, k);
    ViewShaped(s, b, k);
    var inst := h.blocks[b].insts[k];
    ShapedStays(ViewInst(s.uses, s.base, b, k, s.f.blocks[b].insts[k]), inst, cells);
    ReachedArgs(g, b, k);
    forall j | 0 <= j < |inst.args|
      ensures SsaOperand(h, inst.args[j]) && (inst.args[j] == Undef ==> UndefMove(inst))
    {
      OperandThere(s, cells, g, h, inst.args[j], b, k);
      NotComplete(g);
    }
  }

  lemma NotComplete(g: Func)
    ensures !CompleteArg(g, Undef)
  {
  }

  lemma ReachedArgs(g: Func, b: nat, k: nat)
    requires g.Valid() && DefsDominateUses(g) && Complete(g) && b < |g.blocks| && Reachable(g.g, b)
    requires k < |g.blocks[b].insts|
    ensures forall j :: 0 <= j < |g.blocks[b].insts[k].args| ==>
      && OperandOk(g, g.blocks[b].insts[k].args[j], b, k)
      && (CompleteArg(g, g.blocks[b].insts[k].args[j]) || UndefMove(g.blocks[b].insts[k]))
  {
    hide OperandOk, CompleteArg;
    assert BlockOk(g, b) && InstOk(g, b, k) && CompleteBlock(g, b);
  }

  lemma ReachedPhi(g: Func, b: nat, id: nat, p: nat)
    requires g.Valid() && DefsDominateUses(g) && Complete(g) && b < |g.blocks| && IsPred(g.g, p, b)
    requires id in g.blocks[b].phis && p in g.blocks[b].phis[id]
    ensures p < |g.blocks| && OperandOk(g, g.blocks[b].phis[id][p], p, |g.blocks[p].insts|)
    ensures CompleteArg(g, g.blocks[b].phis[id][p]) || g.blocks[b].phis[id][p] == Undef
  {
    hide OperandOk, CompleteArg;
    EdgeReachable(g.g, p, b);
    var i :| 0 <= i < |g.g.succs[p]| && g.g.succs[p][i] == b;
    assert BlockOk(g, p) && EdgeOk(g, p, g.g.succs[p][i]) && PhiOk(g, p, b, id);
    assert CompleteBlock(g, b);
  }

  lemma PhiThere(s: Split, cells: set<nat>, g: Func, h: Func, b: nat, id: nat, p: nat)
    requires Promotion(s, cells, g, h) && b < |s.f.blocks|
    requires b < |h.blocks| && id in h.blocks[b].phis && p in h.blocks[b].phis[id]
    ensures SsaOperand(h, h.blocks[b].phis[id][p])
  {
    hide Promotion, Split.Ok, ViewFunc, Reachable, DefsDominateUses, Complete, SsaOperand, OperandOk, CompleteArg,
      SameShape;
    PromotionParts(s, cells, g, h, b);
    ViewShape(s.f, s.uses, s.base);
    if id in s.f.blocks[b].phis {
      PhiOperandOk(s, b, id, p);
      OperandKept(s, cells, g, h, s.f.blocks[b].phis[id][p]);
    } else {
      assert IsPred(s.f.g, p, b);
      ReachedPhi(g, b, id, p);
      OperandThere(s, cells, g, h, g.blocks[b].phis[id][p], p, |g.blocks[p].insts|);
    }
  }

  lemma UnreachedInst(s: Split, cells: set<nat>, g: Func, h: Func, b: nat, k: nat)
    requires Promotion(s, cells, g, h) && b < |s.f.blocks| && !Reachable(s.f.g, b) && InFunc(h, ByInst(b, k))
    ensures SsaInst(h, b, k)
  {
    hide Promotion, Split.Ok, Shaped, Reachable, DefsDominateUses, Complete, SsaOperand, GrownBlock;
    PromotionParts(s, cells, g, h, b);
    SplitInst(s, b, k);
    forall j | 0 <= j < |h.blocks[b].insts[k].args|
      ensures SsaOperand(h, h.blocks[b].insts[k].args[j])
    {
      OperandKept(s, cells, g, h, h.blocks[b].insts[k].args[j]);
    }
  }

  /** Definitions dominate uses where the program can get. */
  lemma ReachedDominates(g: Func, h: Func)
    requires g.Valid() && h.Valid() && SameReached(g, h) && DefsDominateUses(g)
    ensures DefsDominateUses(h)
  {
    hide Dom, OperandOk, Reachable;
    forall b: nat | b < |h.blocks| && Reachable(h.g, b)
      ensures BlockOk(h, b)
    {
      assert BlockOk(g, b);
      forall k | 0 <= k < |h.blocks[b].insts|
        ensures InstOk(h, b, k)
      {
        assert InstOk(g, b, k);
        forall j | 0 <= j < |h.blocks[b].insts[k].args|
          ensures OperandOk(h, h.blocks[b].insts[k].args[j], b, k)
        {
          ReachedOperand(g, h, h.blocks[b].insts[k].args[j], b, k);
        }
      }
      forall i | 0 <= i < |h.g.succs[b]|
        ensures EdgeOk(h, b, h.g.succs[b][i])
      {
        assert EdgeOk(g, b, g.g.succs[b][i]);
        ReachedEdge(g, h, b, g.g.succs[b][i]);
      }
    }
  }

  lemma ReachedOperand(g: Func, h: Func, a: Operand, b: nat, k: nat)
    requires g.Valid() && SameReached(g, h) && b < |g.blocks| && Reachable(g.g, b) && OperandOk(g, a, b, k)
    ensures OperandOk(h, a, b, k)
  {
    hide Dom, Reachable;
    if a.Use? && a.r.b != b {
      DomIsReachable(g.g, a.r.b, b);
    }
  }

  lemma ReachedEdge(g: Func, h: Func, b: nat, c: nat)
    requires g.Valid() && SameReached(g, h) && b < |g.blocks| && c < |g.blocks| && Reachable(g.g, b) && Edge(g.g, b, c)
    requires EdgeOk(g, b, c)
    ensures b < |h.blocks| && c < |h.blocks| && EdgeOk(h, b, c)
  {
    hide Dom, Reachable, OperandOk;
    EdgeReachable(g.g, b, c);
    forall id | id in h.blocks[c].phis
      ensures PhiOk(h, b, c, id)
    {
      assert PhiOk(g, b, c, id);
      ReachedOperand(g, h, g.blocks[c].phis[id][b], b, |g.blocks[b].insts|);
    }
  }

  /** The result is a program in SSA form without virtual registers, as the source was. */
  lemma ResultWellFormed(s: Split, cells: set<nat>, g: Func, h: Func)
    requires Promotion(s, cells, g, h)
    ensures WellFormed(h)
  {
    hide Promotion, Split.Ok, SsaInst, SsaOperand, DefsDominateUses, Reachable, GrownBlock;
    SameReachedOf(s, cells, g, h);
    SplitForm(s);
    PromotionParts(s, cells, g, h, 0);
    ReachedDominates(g, h);
    EntryReachable(s.f.g);
    forall b: nat, k: nat | InFunc(h, ByInst(b, k))
      ensures SsaInst(h, b, k)
    {
      if Reachable(s.f.g, b) {
        ReachedInst(s, cells, g, h, b, k);
      } else {
        UnreachedInst(s, cells, g, h, b, k);
      }
    }
    forall b: nat, id, p | b < |h.blocks| && id in h.blocks[b].phis && p in h.blocks[b].phis[id]
      ensures SsaOperand(h, h.blocks[b].phis[id][p])
    {
      PhiThere(s, cells, g, h, b, id, p);
    }
  }

  /** Instructions that are no accesses to the object are still the same operations, and blocks
      that are never reached are untouched. */
  ghost predicate OthersKept(f: Func, uses: map<User, (int, nat)>, h: Func) {
    && |h.blocks| == |f.blocks|
    && (forall b: nat :: b < |f.blocks| ==> |h.blocks[b].insts| == |f.blocks[b].insts|)
    && (forall b: nat :: b < |f.blocks| && !Reachable(f.g, b) ==> h.blocks[b] == f.blocks[b])
    && forall b: nat, k: nat :: b < |f.blocks| && k < |f.blocks[b].insts| && ByInst(b, k) !in uses ==>
         SameOp(f.blocks[b].insts[k], h.blocks[b].insts[k])
  }

  lemma PromotionKeepsOthers(s: Split, cells: set<nat>, g: Func, h: Func)
    requires Promotion(s, cells, g, h)
    ensures OthersKept(s.f, s.uses, h)
  {
    hide Promotion, Split.Ok, SameShape, ViewFunc, Reachable, GrownBlock, SameOp;
    SameReachedOf(s, cells, g, h);
    forall b: nat | b < |s.f.blocks|
      ensures |h.blocks[b].insts| == |s.f.blocks[b].insts|
      ensures !Reachable(s.f.g, b) ==> h.blocks[b] == s.f.blocks[b]
      ensures forall k: nat :: k < |s.f.blocks[b].insts| && ByInst(b, k) !in s.uses ==>
        SameOp(s.f.blocks[b].insts[k], h.blocks[b].insts[k])
    {
      BlockKeepsOthers(s, cells, g, h, b);
    }
  }

  lemma BlockKeepsOthers(s: Split, cells: set<nat>, g: Func, h: Func, b: nat)
    requires Promotion(s, cells, g, h) && b < |s.f.blocks|
    ensures b < |h.blocks| && |h.blocks[b].insts| == |s.f.blocks[b].insts|
    ensures !Reachable(s.f.g, b) ==> h.blocks[b] == s.f.blocks[b]
    ensures forall k: nat :: k < |s.f.blocks[b].insts| && ByInst(b, k) !in s.uses ==>
      SameOp(s.f.blocks[b].insts[k], h.blocks[b].insts[k])
  {
    hide Promotion, Split.Ok, SameShape, ViewFunc, Reachable, CellOf;
    PromotionParts(s, cells, g, h, b);
    ViewShape(s.f, s.uses, s.base);
    forall k: nat | k < |s.f.blocks[b].insts| && ByInst(b, k) !in s.uses
      ensures SameOp(s.f.blocks[b].insts[k], h.blocks[b].insts[k])
    {
      ViewAt(s.f, s.uses, s.base, b, k);
      if Reachable(s.f.g, b) {
        OtherKept(s, cells, b, k, h.blocks[b].insts[k]);
      }
    }
  }

  lemma OtherKept(s: Split, cells: set<nat>, b: nat, k: nat, inst': Inst)
    requires s.Ok() && InFunc(s.f, ByInst(b, k)) && SameShape(s.f.blocks[b].insts[k], inst', cells)
    requires forall c :: c in cells ==> c >= s.base
    ensures SameOp(s.f.blocks[b].insts[k], inst')
  {
    hide Split.Ok;
    var rets := s.f.blocks[b].insts[k].rets;
    if |rets| == 1 && rets[0] in cells {
      FreshResults(s, b, k, rets[0] - s.base);
      assert false;
    }
  }

  lemma SameReachedOf(s: Split, cells: set<nat>, g: Func, h: Func)
    requires Promotion(s, cells, g, h)
    ensures SameReached(g, h) && |h.blocks| == |s.f.blocks| && s.f.Valid() && s.Ok() && |s.f.blocks| > 0
  {
  }

  /** The operands of a well-formed program name results or immediates. */
  lemma WellFormedComplete(f: Func)
    requires WellFormed(f)
    ensures f.Valid() && Complete(f)
  {
    hide DefsDominateUses, Shaped, Reachable;
    forall b: nat | b < |f.blocks| && Reachable(f.g, b)
      ensures CompleteBlock(f, b)
    {
      forall k: nat, j: nat | k < |f.blocks[b].insts| && j < |f.blocks[b].insts[k].args|
        ensures CompleteArg(f, f.blocks[b].insts[k].args[j]) || UndefMove(f.blocks[b].insts[k])
      {
        assert InFunc(f, ByInst(b, k));
        assert SsaInst(f, b, k);
        assert SsaOperand(f, f.blocks[b].insts[k].args[j]);
      }
    }
  }
}
