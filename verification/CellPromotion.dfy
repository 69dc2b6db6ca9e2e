/** Promoting one cell of a stack object to SSA values (ReplaceObject in
    passes/mem_to_reg.cpp): what it produces, and that every load of the cell reads the value
    last stored there.

    The cell is the virtual register c: a store moves a value into it and a load moves its
    value out.  The PHIs placed for it carry the number c as well. */
module CellPromotion {
  import opened Cfg
  import opened Options
  import opened Ssa
  import opened SsaForm

  // ---------------------------------------------------------------- functions with a cell

  predicate IsLoad(inst: Inst, c: nat) {
    VReg(c) in inst.args
  }

  predicate IsStore(inst: Inst, c: nat) {
    c in inst.rets
  }

  predicate HasStore(insts: seq<Inst>, c: nat) {
    exists k :: 0 <= k < |insts| && IsStore(insts[k], c)
  }

  /** Loads and stores of the cell are moves; nothing else touches it. */
  predicate CellInst(inst: Inst, c: nat) {
    && (IsLoad(inst, c) ==> inst.op.Mov? && inst.args == [VReg(c)] && !IsStore(inst, c))
    && (IsStore(inst, c) ==> inst.op.Mov? && |inst.args| == 1 && !inst.args[0].VReg? && inst.rets == [c])
  }

  /** A PHI of the cell, or the result of a store to it. */
  predicate CellRef(f: Func, c: nat, r: Ref) {
    match r
    case Phi(_, id) => id == c
    case Res(b, k, _) => b < |f.blocks| && k < |f.blocks[b].insts| && IsStore(f.blocks[b].insts[k], c)
  }

  predicate NotCell(f: Func, c: nat, a: Operand) {
    a.Use? ==> !CellRef(f, c, a.r)
  }

  ghost predicate CellBlock(f: Func, c: nat, b: nat)
    requires b < |f.blocks|
  {
    && (forall k: nat :: k < |f.blocks[b].insts| ==>
          && CellInst(f.blocks[b].insts[k], c)
          && forall j: nat :: j < |f.blocks[b].insts[k].args| ==> NotCell(f, c, f.blocks[b].insts[k].args[j]))
    && c !in f.blocks[b].phis
    && (forall id, p :: id in f.blocks[b].phis && p in f.blocks[b].phis[id] ==>
          NotCell(f, c, f.blocks[b].phis[id][p]) && !f.blocks[b].phis[id][p].VReg?)
  }

  ghost predicate CellForm(f: Func, c: nat) {
    && f.Valid() && EntryHasNoPreds(f.g) && f.blocks[0].phis == map[] && DefsDominateUses(f)
    && forall b: nat :: b < |f.blocks| ==> CellBlock(f, c, b)
  }

  // ---------------------------------------------------------------- the current definition

  /** The definition of the cell when b is entered. */
  ghost function Top(f: Func, t: DomTree, phis: set<nat>, c: nat, b: nat): Option<Operand>
    requires f.Valid() && TreeOf(f.g, t) && b < |f.blocks|
    decreases Dominators(f.g, b), 1
  {
    if b in phis then Some(Use(Phi(b, c))) else Inherited(f, t, phis, c, b)
  }

  ghost function Inherited(f: Func, t: DomTree, phis: set<nat>, c: nat, b: nat): Option<Operand>
    requires f.Valid() && TreeOf(f.g, t) && b < |f.blocks|
    decreases Dominators(f.g, b), 0
  {
    if b in t.idom then
      DominatorsShrink(f.g, t.idom[b], b);
      TopAt(f, t, phis, c, t.idom[b], |f.blocks[t.idom[b]].insts|)
    else None
  }

  /** The definition of the cell before instruction k of b. */
  ghost function TopAt(f: Func, t: DomTree, phis: set<nat>, c: nat, b: nat, k: nat): Option<Operand>
    requires f.Valid() && TreeOf(f.g, t) && b < |f.blocks| && k <= |f.blocks[b].insts|
    decreases Dominators(f.g, b), k + 2
  {
    if k == 0 then Top(f, t, phis, c, b)
    else
      var inst := f.blocks[b].insts[k - 1];
      if IsStore(inst, c) && |inst.args| == 1 then Some(inst.args[0]) else TopAt(f, t, phis, c, b, k - 1)
  }

  ghost function Out(f: Func, t: DomTree, phis: set<nat>, c: nat, b: nat): Option<Operand>
    requires f.Valid() && TreeOf(f.g, t) && b < |f.blocks|
  {
    TopAt(f, t, phis, c, b, |f.blocks[b].insts|)
  }

  function OrUndef(a: Option<Operand>): Operand {
    match a
    case Some(x) => x
    case None => Undef
  }

  // ---------------------------------------------------------------- the result

  ghost predicate Defines(f: Func, phis: set<nat>, c: nat, b: nat) {
    b in phis || (b < |f.blocks| && HasStore(f.blocks[b].insts, c))
  }

  /** Every frontier block of a store or a PHI has a PHI. */
  ghost predicate Closed(f: Func, t: DomTree, phis: set<nat>, c: nat)
    requires f.Valid() && TreeOf(f.g, t)
  {
    && (forall b :: b in phis ==> b < |f.blocks| && b in t.idom)
    && forall a: nat, b: nat ::
         a < |f.blocks| && Reachable(f.g, a) && Defines(f, phis, c, a) && b < |f.blocks| && b in t.front[a] ==>
           b in phis
  }

  /** A load becomes a move of the current definition; a store only keeps its operand. */
  ghost function PromotedInst(f: Func, t: DomTree, phis: set<nat>, c: nat, b: nat, k: nat): Inst
    requires f.Valid() && TreeOf(f.g, t) && b < |f.blocks| && k < |f.blocks[b].insts|
  {
    var inst := f.blocks[b].insts[k];
    if IsLoad(inst, c) then inst.(args := [OrUndef(TopAt(f, t, phis, c, b, k))])
    else if IsStore(inst, c) then inst.(rets := [])
    else inst
  }

  ghost predicate PromotedInsts(f: Func, t: DomTree, phis: set<nat>, c: nat, b: nat, insts: seq<Inst>)
    requires f.Valid() && TreeOf(f.g, t) && b < |f.blocks|
  {
    && |insts| == |f.blocks[b].insts|
    && forall k: nat :: k < |insts| ==> insts[k] == PromotedInst(f, t, phis, c, b, k)
  }

  ghost predicate PromotedPhis(f: Func, t: DomTree, phis: set<nat>, c: nat, b: nat, filled: map<nat, map<nat, Operand>>)
    requires f.Valid() && TreeOf(f.g, t) && b < |f.blocks|
  {
    && (forall id :: id in filled <==> id in f.blocks[b].phis || (id == c && b in phis))
    && (forall id :: id in f.blocks[b].phis && id != c ==> filled[id] == f.blocks[b].phis[id])
    && (b in phis ==> forall p: nat :: p in filled[c] <==> p < |f.blocks| && Reachable(f.g, p) && Edge(f.g, p, b))
    && (b in phis ==> forall p: nat :: p in filled[c] ==>
         p < |f.blocks| && filled[c][p] == OrUndef(Out(f, t, phis, c, p)))
  }

  ghost predicate IsPromoted(f: Func, t: DomTree, phis: set<nat>, c: nat, g: Func)
    requires f.Valid() && TreeOf(f.g, t)
  {
    && g.g == f.g && |g.blocks| == |f.blocks|
    && forall b: nat :: b < |f.blocks| ==> PromotedBlock(f, t, phis, c, b, g.blocks[b])
  }

  /** Blocks that cannot be reached do not change. */
  ghost predicate PromotedBlock(f: Func, t: DomTree, phis: set<nat>, c: nat, b: nat, block: Block)
    requires f.Valid() && TreeOf(f.g, t) && b < |f.blocks|
  {
    if Reachable(f.g, b) then PromotedInsts(f, t, phis, c, b, block.insts) && PromotedPhis(f, t, phis, c, b, block.phis)
    else block == f.blocks[b]
  }

  /** A finished promotion. */
  datatype Ctx = Ctx(f: Func, t: DomTree, phis: set<nat>, c: nat, g: Func)
  {
    ghost predicate Shape() {
      f.Valid() && g.Valid() && TreeOf(f.g, t) && g.g == f.g && |g.blocks| == |f.blocks|
    }

    ghost predicate Done()
      requires Shape()
    {
      CellForm(f, c) && Closed(f, t, phis, c) && IsPromoted(f, t, phis, c, g)
    }

    ghost predicate Ok() {
      Shape() && Done()
    }
  }

  // ---------------------------------------------------------------- definitions dominate

  /** The definition is available before instruction k of b. */
  ghost predicate TopOk(f: Func, phis: set<nat>, c: nat, b: nat, k: nat, a: Operand) {
    && !a.VReg?
    && (a.Use? ==>
          && a.r.b < |f.blocks| && Dom(f.g, a.r.b, b) && (a.r.b == b && a.r.Res? ==> a.r.k < k)
          && (if CellRef(f, c, a.r) then a.r.Phi? && a.r.b in phis else Exists(f, InstOf(a.r))))
  }

  lemma StoredOperand(f: Func, c: nat, phis: set<nat>, b: nat, k: nat)
    requires CellForm(f, c) && b < |f.blocks| && Reachable(f.g, b) && k < |f.blocks[b].insts|
    requires IsStore(f.blocks[b].insts[k], c)
    ensures |f.blocks[b].insts[k].args| == 1 && TopOk(f, phis, c, b, k + 1, f.blocks[b].insts[k].args[0])
  {
    assert CellBlock(f, c, b);
    var a := f.blocks[b].insts[k].args[0];
    assert BlockOk(f, b) && InstOk(f, b, k);
    assert OperandOk(f, a, b, k);
    DomReflexive(f.g, b);
  }

  lemma TopOkLater(f: Func, phis: set<nat>, c: nat, d: nat, b: nat, k: nat, k': nat, a: Operand)
    requires TopOk(f, phis, c, d, k, a) && Reachable(f.g, b) && (if d == b then k <= k' else Dom(f.g, d, b))
    ensures TopOk(f, phis, c, b, k', a)
  {
    hide Dom, Exists;
    if a.Use? && d != b {
      DomTransitive(f.g, a.r.b, d, b);
      if a.r.b == b {
        DomAntisymmetric(f.g, d, b);
      }
    }
  }

  lemma {:induction false} TopIsOk(f: Func, t: DomTree, phis: set<nat>, c: nat, b: nat, k: nat)
    requires CellForm(f, c) && TreeOf(f.g, t) && b < |f.blocks| && Reachable(f.g, b) && k <= |f.blocks[b].insts|
    ensures TopAt(f, t, phis, c, b, k).Some? ==> TopOk(f, phis, c, b, k, TopAt(f, t, phis, c, b, k).value)
    decreases Dominators(f.g, b), k
  {
    hide Dom, Exists, CellForm, CellRef;
    CellFormValid(f, c);
    if k > 0 {
      if IsStore(f.blocks[b].insts[k - 1], c) {
        StoredOperand(f, c, phis, b, k - 1);
      } else {
        TopIsOk(f, t, phis, c, b, k - 1);
        if TopAt(f, t, phis, c, b, k - 1).Some? {
          TopOkLater(f, phis, c, b, b, k - 1, k, TopAt(f, t, phis, c, b, k - 1).value);
        }
      }
    } else {
      TopAtEntry(f, t, phis, c, b);
      if b in phis {
        OwnPhi(f, phis, c, b);
      } else if b in t.idom {
        var d := t.idom[b];
        IdomDominates(f.g, t, b);
        DominatorsShrink(f.g, d, b);
        TopIsOk(f, t, phis, c, d, |f.blocks[d].insts|);
        if Out(f, t, phis, c, d).Some? {
          TopOkLater(f, phis, c, d, b, |f.blocks[d].insts|, 0, Out(f, t, phis, c, d).value);
        }
      }
    }
  }

  lemma CellFormValid(f: Func, c: nat)
    requires CellForm(f, c)
    ensures f.Valid() && EntryHasNoPreds(f.g) && DefsDominateUses(f) && f.blocks[0].phis == map[]
  {
  }

  lemma OwnPhi(f: Func, phis: set<nat>, c: nat, b: nat)
    requires b in phis && b < |f.blocks|
    ensures TopOk(f, phis, c, b, 0, Use(Phi(b, c)))
  {
    DomReflexive(f.g, b);
  }

  lemma IdomDominates(g: Graph, t: DomTree, b: nat)
    requires g.Valid() && TreeOf(g, t) && b in t.idom && Reachable(g, b)
    ensures t.idom[b] < |g.succs| && SDom(g, t.idom[b], b) && Reachable(g, t.idom[b])
  {
    DomIsReachable(g, t.idom[b], b);
  }

  lemma TopAtEntry(f: Func, t: DomTree, phis: set<nat>, c: nat, b: nat)
    requires f.Valid() && TreeOf(f.g, t) && b < |f.blocks|
    ensures TopAt(f, t, phis, c, b, 0) ==
      if b in phis then Some(Use(Phi(b, c))) else if b in t.idom then Out(f, t, phis, c, t.idom[b]) else None
  {
    assert TopAt(f, t, phis, c, b, 0) == Top(f, t, phis, c, b);
  }
}
