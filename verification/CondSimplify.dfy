/** Redundant condition elimination (passes/cond_simplify.cpp): a comparison that repeats a
    condition some dominating edge has decided is replaced by a constant. */
module CondSimplify {
  import opened Cfg
  import opened Options
  import opened Ssa
  import opened SsaForm
  import opened DomEdges

  // ---------------------------------------------------------------- condition codes

  function GetInverseCond(cc: Cond): Cond {
    match cc
    case EQ => NE
    case OEQ => ONE
    case UEQ => UNE
    case NE => EQ
    case ONE => OEQ
    case UNE => OEQ
    case LT => GE
    case OLT => OGE
    case ULT => UGE
    case GT => LE
    case OGT => OLE
    case UGT => ULE
    case LE => GT
    case OLE => OGT
    case ULE => UGT
    case GE => LT
    case OGE => OLT
    case UGE => ULT
    case O => UO
    case UO => O
  }

  /** Codes whose inverse is the negation on unordered operands too. */
  predicate Exact(cc: Cond) {
    cc in {EQ, NE, UNE, O, UO}
  }

  /** Plain codes, codes that fail and codes that hold on unordered operands, and tests for order. */
  datatype Family = Plain | FailsUnordered | HoldsUnordered | OrderTest

  function FamilyOf(cc: Cond): Family {
    if cc in {O, UO} then OrderTest
    else if cc in {OEQ, ONE, OLT, OGT, OLE, OGE} then FailsUnordered
    else if cc in {UEQ, UNE, ULT, UGT, ULE, UGE} then HoldsUnordered
    else Plain
  }

  /** The inverse is of the same family, except that of UNE, and inverting twice gives the code back
      except for UEQ and UNE. */
  lemma InverseFamily(cc: Cond)
    ensures FamilyOf(GetInverseCond(cc)) == FamilyOf(cc) <==> cc != UNE
    ensures GetInverseCond(GetInverseCond(cc)) == cc <==> cc !in {UEQ, UNE}
  {
  }

  /** The inverse code negates the comparison exactly when the operands are ordered or the
      code is one of five. */
  lemma InverseNegates(cc: Cond, fp: bool, a: Val, b: Val, o: Oracle)
    ensures
      (Holds(GetInverseCond(cc), RelOf(GetInverseCond(cc), fp, a, b, o)) <==> !Holds(cc, RelOf(cc, fp, a, b, o)))
      <==> (RelOf(cc, fp, a, b, o) != Unordered || Exact(cc))
    ensures RelOf(cc, fp, a, b, o) == Unordered ==> fp
  {
    match cc {
      case ULT | UGT | ULE | UGE =>
      case _ =>
    }
  }

  // ---------------------------------------------------------------- redundancy

  datatype Condition = JumpCondition(arg: Operand, flag: bool)

  function InstAtRef(f: Func, a: Operand): Option<Inst> {
    if a.Use? && a.r.Res? && a.r.b < |f.blocks| && a.r.k < |f.blocks[a.r.b].insts| then
      Some(f.blocks[a.r.b].insts[a.r.k])
    else None
  }

  /** Constant instructions compare equal when they have the same kind and operands. */
  predicate IsConstantInst(inst: Inst) {
    inst.op.Arg? || (inst.op.Mov? && |inst.args| == 1 && inst.args[0].Imm?)
  }

  predicate IsEqual(f: Func, a: Operand, b: Operand) {
    || a == b
    || (InstAtRef(f, a).Some? && InstAtRef(f, b).Some?
        && IsConstantInst(InstAtRef(f, a).value) && IsConstantInst(InstAtRef(f, b).value)
        && InstAtRef(f, a).value.op == InstAtRef(f, b).value.op &&
           InstAtRef(f, a).value.args == InstAtRef(f, b).value.args)
  }

  predicate IsCmp(inst: Inst) {
    inst.op.Cmp? && |inst.args| == 2 && |inst.rets| == 1
  }

  predicate SameComparison(f: Func, cmp: Inst, prior: Inst) {
    && IsCmp(cmp) && IsCmp(prior)
    && IsEqual(f, cmp.args[0], prior.args[0]) && IsEqual(f, cmp.args[1], prior.args[1])
  }

  /** The constant a comparison has under a condition, if the condition decides it. */
  function IsRedundant(f: Func, cmp: Inst, cond: Condition): Option<bool> {
    match InstAtRef(f, cond.arg)
    case None => None
    case Some(prior) =>
      if SameComparison(f, cmp, prior) then
        if cmp.op.cc == prior.op.cc then Some(cond.flag)
        else if cmp.op.cc == GetInverseCond(prior.op.cc) then Some(!cond.flag)
        else None
      else None
  }

  // ---------------------------------------------------------------- functions the pass accepts

  /** Block b ends in a terminator. */
  predicate Terminated(insts: seq<Inst>) {
    |insts| > 0 && insts[|insts| - 1].op in {Jump, JumpCond, Switch, Other}
  }

  /** A verified, completely defined function.  ty tells which results are floating-point. */
  ghost predicate Simplifiable(f: Func, ty: Ref -> bool) {
    && f.Valid() && DefsDominateUses(f) && Complete(f) && EntryHasNoPreds(f.g)
    && (forall b: nat :: b < |f.blocks| ==> Terminated(f.blocks[b].insts))
    && (forall b: nat, k: nat :: b < |f.blocks| && k < |f.blocks[b].insts| ==> Shaped(f.blocks[b].insts[k], b, k, ty))
  }

  ghost predicate Shaped(inst: Inst, b: nat, k: nat, ty: Ref -> bool) {
    && (inst.op.Cmp? ==>
          && |inst.args| == 2 && |inst.rets| == 1
          && !ty(Res(b, k, 0))
          && inst.args[0].Use? && ty(inst.args[0].r) == inst.op.fp
          && inst.args[1].Use? && ty(inst.args[1].r) == inst.op.fp)
    && (inst.op.Mov? || inst.op.Arg? ==> |inst.rets| == 1 && ty(Res(b, k, 0)) == inst.op.fp)
    && (inst.op.JumpCond? || inst.op.Switch? ==> |inst.args| > 0)
  }

  /** Instruction k of a reachable block is a comparison. */
  ghost predicate CmpAt(f: Func, b: nat, k: nat)
    requires f.Valid()
  {
    b < |f.blocks| && Reachable(f.g, b) && k < |f.blocks[b].insts| && IsCmp(f.blocks[b].insts[k])
  }

  /** Folding cmp by the inverse code of prior is right on unordered operands, too. */
  predicate SafePair(f: Func, cmp: Inst, prior: Inst) {
    SameComparison(f, cmp, prior) && prior.op.fp && cmp.op.cc != prior.op.cc
      && cmp.op.cc == GetInverseCond(prior.op.cc) ==>
        Exact(prior.op.cc)
  }

  /** No floating-point comparison repeats another one that dominates it with the inverse of a
      code that its inverse does not negate. */
  ghost predicate Invertible(f: Func)
    requires f.Valid()
  {
    forall b: nat, k: nat, c: nat, m: nat :: CmpAt(f, b, k) && CmpAt(f, c, m) && Dom(f.g, c, b) ==>
      SafePair(f, f.blocks[b].insts[k], f.blocks[c].insts[m])
  }

  // ---------------------------------------------------------------- where conditions come from

  /** The terminator of s decides cond on its ith successor, the only edge to that block. */
  ghost predicate Decides(f: Func, s: nat, i: nat, cond: Condition)
    requires f.Valid()
  {
    && s < |f.blocks| && i < |f.g.succs[s]| && Reachable(f.g, s)
    && Count(f.g.succs[s], f.g.succs[s][i]) == 1
    && var last := f.blocks[s].insts[|f.blocks[s].insts| - 1];
       && |last.args| > 0 && last.args[0] == cond.arg
       && (last.op.JumpCond? || last.op.Switch?)
       && (last.op.JumpCond? ==> cond.flag == (i == 0))
       && (last.op.Switch? ==> cond.flag == (i != 0))
  }

  /** cond was decided on an edge that every run to b takes. */
  ghost predicate CondAt(f: Func, b: nat, cond: Condition)
    requires f.Valid()
  {
    exists s: nat, i: nat :: Decides(f, s, i, cond) && EdgeDom(f.g, s, f.g.succs[s][i], f.g.succs[s][i]) &&
      Dom(f.g, f.g.succs[s][i], b)
  }

  ghost predicate CondsAt(f: Func, b: nat, conds: seq<Condition>)
    requires f.Valid()
  {
    forall c :: c in conds ==> CondAt(f, b, c)
  }

  // ---------------------------------------------------------------- what the pass should decide

  /** The operand is the result of an instruction with this operation and these operands. */
  predicate ResultOf(f: Func, a: Operand, op: Op, args: seq<Operand>) {
    && a.Use? && a.r.Res? && a.r.b < |f.blocks| && a.r.k < |f.blocks[a.r.b].insts|
    && f.blocks[a.r.b].insts[a.r.k].op == op && f.blocks[a.r.b].insts[a.r.k].args == args
  }

  /** The operands are one and the same, or both the same argument, or both the same constant. */
  ghost predicate Alike(f: Func, a: Operand, b: Operand) {
    || a == b
    || (exists index: nat, fp: bool, args ::
          ResultOf(f, a, Arg(index, fp), args) && ResultOf(f, b, Arg(index, fp), args))
    || (exists c: Val, fp: bool :: ResultOf(f, a, Mov(fp), [Imm(c)]) && ResultOf(f, b, Mov(fp), [Imm(c)]))
  }

  /** The jump or switch at the end of s is taken on the comparison r, and every run to b has
      followed its ith edge. */
  ghost predicate Followed(f: Func, s: nat, i: nat, r: Ref, b: nat)
    requires f.Valid()
  {
    && s < |f.blocks| && i < |f.g.succs[s]| && Reachable(f.g, s)
    && Count(f.g.succs[s], f.g.succs[s][i]) == 1
    && EdgeDom(f.g, s, f.g.succs[s][i], f.g.succs[s][i]) && Dom(f.g, f.g.succs[s][i], b)
    && var last := f.blocks[s].insts[|f.blocks[s].insts| - 1];
       (last.op.JumpCond? || last.op.Switch?) && |last.args| > 0 && last.args[0] == Use(r)
  }

  /** The outcome of a comparison on whose ith edge a run is: a jump goes to its first successor
      when the comparison holds, a switch to its second. */
  predicate OutcomeOn(f: Func, s: nat, i: nat)
    requires s < |f.blocks| && |f.blocks[s].insts| > 0
  {
    if f.blocks[s].insts[|f.blocks[s].insts| - 1].op.JumpCond? then i == 0 else i != 0
  }

  /** Instruction k of b compares what the comparison r compared, whose outcome every run to b has
      followed: with the same code it has the same outcome, with the inverse code the other. */
  ghost predicate Repeats(f: Func, b: nat, k: nat, s: nat, i: nat, r: Ref, flag: bool)
    requires f.Valid()
  {
    && b < |f.blocks| && k < |f.blocks[b].insts| && Followed(f, s, i, r, b)
    && r.Res? && r.b < |f.blocks| && r.k < |f.blocks[r.b].insts|
    && var cmp, prior := f.blocks[b].insts[k], f.blocks[r.b].insts[r.k];
       && cmp.op.Cmp? && |cmp.args| == 2 && |cmp.rets| == 1
       && prior.op.Cmp? && |prior.args| == 2 && |prior.rets| == 1
       && Alike(f, cmp.args[0], prior.args[0]) && Alike(f, cmp.args[1], prior.args[1])
       && ((cmp.op.cc == prior.op.cc && flag == OutcomeOn(f, s, i))
           || (cmp.op.cc == GetInverseCond(prior.op.cc) && flag == !OutcomeOn(f, s, i)))
  }

  /** Some comparison on the way to instruction k of b decides it. */
  ghost predicate Decided(f: Func, b: nat, k: nat, flag: bool)
    requires f.Valid()
  {
    exists s: nat, i: nat, r: Ref :: Repeats(f, b, k, s, i, r, flag)
  }

  lemma AlikeExact(f: Func, a: Operand, b: Operand)
    ensures Alike(f, a, b) <==> IsEqual(f, a, b)
  {
    if IsEqual(f, a, b) && a != b {
      var x := InstAtRef(f, a).value;
      if x.op.Arg? {
        assert ResultOf(f, a, Arg(x.op.index, x.op.fp), x.args) && ResultOf(f, b, Arg(x.op.index, x.op.fp), x.args);
      } else {
        assert x.args == [Imm(x.args[0].c)];
        assert ResultOf(f, a, Mov(x.op.fp), [Imm(x.args[0].c)]) && ResultOf(f, b, Mov(x.op.fp), [Imm(x.args[0].c)]);
      }
    }
  }

  lemma NotOwnInverse(cc: Cond)
    ensures GetInverseCond(cc) != cc
  {
  }

  lemma RepeatsIsRedundant(f: Func, b: nat, k: nat, s: nat, i: nat, r: Ref, flag: bool)
    requires f.Valid() && Repeats(f, b, k, s, i, r, flag)
    ensures var cond := JumpCondition(Use(r), OutcomeOn(f, s, i));
      CondAt(f, b, cond) && IsRedundant(f, f.blocks[b].insts[k], cond) == Some(flag)
  {
    hide Dom, EdgeDom, Reachable, Alike, IsEqual, GetInverseCond;
    var cmp, prior := f.blocks[b].insts[k], f.blocks[r.b].insts[r.k];
    assert Decides(f, s, i, JumpCondition(Use(r), OutcomeOn(f, s, i)));
    AlikeExact(f, cmp.args[0], prior.args[0]);
    AlikeExact(f, cmp.args[1], prior.args[1]);
    NotOwnInverse(prior.op.cc);
  }

  lemma RedundantRepeats(f: Func, b: nat, k: nat, s: nat, i: nat, cond: Condition)
    requires f.Valid() && b < |f.blocks| && k < |f.blocks[b].insts| && Decides(f, s, i, cond)
    requires EdgeDom(f.g, s, f.g.succs[s][i], f.g.succs[s][i]) && Dom(f.g, f.g.succs[s][i], b)
    requires IsRedundant(f, f.blocks[b].insts[k], cond).Some?
    ensures cond.arg.Use?
    ensures Repeats(f, b, k, s, i, cond.arg.r, IsRedundant(f, f.blocks[b].insts[k], cond).value)
  {
    hide Dom, EdgeDom, Reachable, Alike, IsEqual, GetInverseCond;
    var cmp, prior := f.blocks[b].insts[k], InstAtRef(f, cond.arg).value;
    AlikeExact(f, cmp.args[0], prior.args[0]);
    AlikeExact(f, cmp.args[1], prior.args[1]);
    assert Followed(f, s, i, cond.arg.r, b);
  }

  /** The conditions on the stack decide exactly such comparisons. */
  lemma DecidedExact(f: Func, b: nat, k: nat, flag: bool)
    requires f.Valid() && b < |f.blocks| && k < |f.blocks[b].insts|
    ensures Decided(f, b, k, flag) <==>
      exists cond :: CondAt(f, b, cond) && IsRedundant(f, f.blocks[b].insts[k], cond) == Some(flag)
  {
    hide Repeats, IsRedundant, Dom, EdgeDom, CondAt;
    if s: nat, i: nat, r: Ref :| Repeats(f, b, k, s, i, r, flag) {
      RepeatsIsRedundant(f, b, k, s, i, r, flag);
    }
    if cond :| CondAt(f, b, cond) && IsRedundant(f, f.blocks[b].insts[k], cond) == Some(flag) {
      var s, i := CondSource(f, b, cond);
      RedundantRepeats(f, b, k, s, i, cond);
    }
  }

  // ---------------------------------------------------------------- values on runs

  /** The value of an operand just before instruction k of the block executed at step n. */
  ghost function ValueAt(f: Func, o: Oracle, n: nat, k: nat, a: Operand): Option<Val>
    requires f.Valid()
  {
    var s := Steps(f, o, n);
    if s.At? && s.b < |f.blocks| && k <= |f.blocks[s.b].insts| then
      match Exec(f, o, s.b, k, s.e, s.log)
      case Pt(e, _, _) => Read(a, e)
      case Wrong => None
    else None
  }

  /** A result that has been computed is still what its instruction last computed. */
  lemma {:induction false} ValueSince(f: Func, o: Oracle, m: nat, k: nat, n: nat, j: nat, r: Ref)
    requires f.Valid() && m < n && Steps(f, o, n).At?
    requires Steps(f, o, m).At? && k <= |f.blocks[Steps(f, o, m).b].insts|
    requires Executing(f, o, n) && j <= |f.blocks[Steps(f, o, n).b].insts|
    requires Exec(f, o, Steps(f, o, n).b, j, Steps(f, o, n).e, Steps(f, o, n).log).Pt?
    requires r.Phi? || r.b != Steps(f, o, m).b || r.k < k
    requires forall i: nat :: m < i <= n && Steps(f, o, i).At? ==> Steps(f, o, i).b != r.b
    ensures ValueAt(f, o, n, j, Use(r)) == ValueAt(f, o, m, k, Use(r))
  {
    hide Steps, Exec;
    StillGoing(f, o, m + 1, n);
    StepTaken(f, o, m);
    var s, t := Steps(f, o, m), Steps(f, o, n);
    ExecKeepsEarlier(f, o, s.b, k, |f.blocks[s.b].insts|, s.e, s.log, r);
    RefPersists(f, o, m + 1, n, r);
    ExecKeepsRefs(f, o, t.b, j, t.e, t.log, r);
  }

  ghost predicate Executing(f: Func, o: Oracle, n: nat)
    requires f.Valid()
  {
    Steps(f, o, n).At? && Steps(f, o, n).b < |f.blocks|
  }

  /** In a simplifiable function every point of every executed block is reached. */
  lemma PointReached(f: Func, ty: Ref -> bool, o: Oracle, n: nat, k: nat)
    requires Simplifiable(f, ty) && Steps(f, o, n).At?
    ensures Executing(f, o, n) && Reachable(f.g, Steps(f, o, n).b)
    ensures var s := Steps(f, o, n);
      k <= |f.blocks[s.b].insts| ==>
        Exec(f, o, s.b, k, s.e, s.log).Pt? && AllSet(f, s.b, k, Exec(f, o, s.b, k, s.e, s.log).e)
  {
    NeverReadsUndefined(f, o, n);
    var s := Steps(f, o, n);
    if k <= |f.blocks[s.b].insts| {
      BlockNeverStuck(f, o, s.b, k, s.e, s.log);
    }
  }

  /** The operand values read by instruction k of the block executed at step n. */
  ghost function Operands(f: Func, o: Oracle, n: nat, k: nat): seq<Val>
    requires f.Valid() && Executing(f, o, n) && k < |f.blocks[Steps(f, o, n).b].insts|
  {
    var s := Steps(f, o, n);
    var args := f.blocks[s.b].insts[k].args;
    match Exec(f, o, s.b, k, s.e, s.log)
    case Pt(e, _, _) => if Ssa.Defined(args, e) then Values(args, e) else []
    case Wrong => []
  }

  lemma OperandsAre(f: Func, ty: Ref -> bool, o: Oracle, n: nat, k: nat)
    requires Simplifiable(f, ty) && Steps(f, o, n).At?
    requires Executing(f, o, n) && k < |f.blocks[Steps(f, o, n).b].insts|
    ensures var args := f.blocks[Steps(f, o, n).b].insts[k].args;
      && |Operands(f, o, n, k)| == |args|
      && forall j :: 0 <= j < |args| ==> ValueAt(f, o, n, k, args[j]) == Some(Operands(f, o, n, k)[j])
  {
    hide Steps, Exec;
    PointReached(f, ty, o, n, k);
    var s := Steps(f, o, n);
    OperandsSet(f, s.b, k, Exec(f, o, s.b, k, s.e, s.log).e);
  }

  /** What a pure instruction leaves in its result. */
  lemma JustComputed(f: Func, ty: Ref -> bool, o: Oracle, n: nat, k: nat)
    requires Simplifiable(f, ty) && Steps(f, o, n).At?
    requires Executing(f, o, n) && k < |f.blocks[Steps(f, o, n).b].insts|
    requires var inst := f.blocks[Steps(f, o, n).b].insts[k]; Pure(inst.op) && |inst.rets| == 1
    ensures var s := Steps(f, o, n); var inst := f.blocks[s.b].insts[k];
      ValueAt(f, o, n, k + 1, Use(Res(s.b, k, 0))) == Some(Result(inst.op, Operands(f, o, n, k), o, [], 0))
  {
    hide Steps;
    PointReached(f, ty, o, n, k);
    PointReached(f, ty, o, n, k + 1);
    var s := Steps(f, o, n);
    var p, p' := Exec(f, o, s.b, k, s.e, s.log), Exec(f, o, s.b, k + 1, s.e, s.log);
    var inst := f.blocks[s.b].insts[k];
    OperandsSet(f, s.b, k, p.e);
    assert p' == ExecInst(s.b, k, inst, o, p.e, p.log);
    PureResult(inst.op, Values(inst.args, p.e), o, p.log);
    assert p'.e.refs(Res(s.b, k, 0)) == Some(Result(inst.op, Values(inst.args, p.e), o, p.log, 0));
  }

  lemma PureResult(op: Op, vals: seq<Val>, o: Oracle, log: seq<Event>)
    requires Pure(op)
    ensures Result(op, vals, o, log, 0) == Result(op, vals, o, [], 0)
  {
  }

  /** An available result holds what its instruction computed at the last visit of its block. */
  lemma LastComputed(f: Func, ty: Ref -> bool, o: Oracle, n: nat, k: nat, r: Ref) returns (i: nat)
    requires Simplifiable(f, ty) && Steps(f, o, n).At? && r.Res? && IsResult(f, r)
    requires Executing(f, o, n) && k <= |f.blocks[Steps(f, o, n).b].insts| && Available(f, r, Steps(f, o, n).b, k)
    ensures i <= n && Executing(f, o, i) && Steps(f, o, i).b == r.b && (i == n ==> r.k < k)
    ensures r.b in Trail(f, o, n) && i == Last(Trail(f, o, n), r.b)
    ensures ValueAt(f, o, n, k, Use(r)) == ValueAt(f, o, i, r.k + 1, Use(r))
  {
    hide Steps, Exec, Simplifiable, Trail, ValueAt, Last;
    PointReached(f, ty, o, n, k);
    SimplifiableValid(f, ty);
    TrailIsRun(f, o, n);
    var b := Steps(f, o, n).b;
    DomReflexive(f.g, b);
    assert Dom(f.g, r.b, b);
    i := Last(Trail(f, o, n), r.b);
    TrailAt(f, o, n, i);
    PointReached(f, ty, o, i, r.k + 1);
    if r.b == b {
      TrailAt(f, o, n, n);
      LastIsLast(Trail(f, o, n), b, n);
      SameVisit(f, o, n, k, r);
    } else {
      TrailAt(f, o, n, n);
      NotAgain(f, o, n, r.b);
      ValueSince(f, o, i, r.k + 1, n, k, r);
    }
  }

  lemma SameVisit(f: Func, o: Oracle, n: nat, k: nat, r: Ref)
    requires f.Valid() && Executing(f, o, n) && Steps(f, o, n).b == r.b && r.Res? && r.k < k <= |f.blocks[r.b].insts|
    requires Exec(f, o, r.b, k, Steps(f, o, n).e, Steps(f, o, n).log).Pt?
    ensures ValueAt(f, o, n, k, Use(r)) == ValueAt(f, o, n, r.k + 1, Use(r))
  {
    hide Steps, Exec;
    var s := Steps(f, o, n);
    ExecKeepsEarlier(f, o, r.b, r.k + 1, k, s.e, s.log, r);
  }

  lemma SimplifiableValid(f: Func, ty: Ref -> bool)
    requires Simplifiable(f, ty)
    ensures f.Valid()
  {
  }

  /** After its last index in the trail a block is not visited again. */
  lemma NotAgain(f: Func, o: Oracle, n: nat, b: nat)
    requires f.Valid() && Steps(f, o, n).At? && b in Trail(f, o, n)
    ensures forall m: nat :: Last(Trail(f, o, n), b) < m <= n && Steps(f, o, m).At? ==> Steps(f, o, m).b != b
  {
    hide Steps;
    forall m: nat | Last(Trail(f, o, n), b) < m <= n && Steps(f, o, m).At?
      ensures Steps(f, o, m).b != b
    {
      TrailAt(f, o, n, m);
      AfterLast(Trail(f, o, n), b, m);
    }
  }

  // ---------------------------------------------------------------- constants

  function ConstantValue(inst: Inst, o: Oracle): Val
    requires IsConstantInst(inst)
  {
    match inst.op
    case Arg(index, _) => o.param(index)
    case _ => inst.args[0].c
  }

  lemma ShapedAt(f: Func, ty: Ref -> bool, b: nat, k: nat)
    requires Simplifiable(f, ty) && b < |f.blocks| && k < |f.blocks[b].insts|
    ensures Shaped(f.blocks[b].insts[k], b, k, ty)
  {
  }

  lemma ConstantHolds(f: Func, ty: Ref -> bool, o: Oracle, n: nat, k: nat, a: Operand)
    requires Simplifiable(f, ty) && Steps(f, o, n).At?
    requires Executing(f, o, n) && k <= |f.blocks[Steps(f, o, n).b].insts|
    requires InstAtRef(f, a).Some? && IsConstantInst(InstAtRef(f, a).value)
    requires IsResult(f, a.r) && Available(f, a.r, Steps(f, o, n).b, k)
    ensures ValueAt(f, o, n, k, a) == Some(ConstantValue(InstAtRef(f, a).value, o))
  {
    hide Steps, Exec, Simplifiable, Available, ValueAt, Operands, Trail, Last, Result, ConstantValue;
    SimplifiableValid(f, ty);
    var i := LastComputed(f, ty, o, n, k, a.r);
    ShapedAt(f, ty, a.r.b, a.r.k);
    JustComputed(f, ty, o, i, a.r.k);
    OperandsAre(f, ty, o, i, a.r.k);
    ImmediateValue(f, ty, o, i, a.r.k);
    ConstantResult(InstAtRef(f, a).value, Operands(f, o, i, a.r.k), o);
  }

  lemma ConstantResult(inst: Inst, vals: seq<Val>, o: Oracle)
    requires IsConstantInst(inst) && (inst.op.Mov? ==> vals == [inst.args[0].c])
    ensures Result(inst.op, vals, o, [], 0) == ConstantValue(inst, o)
  {
  }

  lemma ImmediateValue(f: Func, ty: Ref -> bool, o: Oracle, n: nat, k: nat)
    requires Simplifiable(f, ty) && Steps(f, o, n).At?
    requires Executing(f, o, n) && k < |f.blocks[Steps(f, o, n).b].insts|
    ensures var args := f.blocks[Steps(f, o, n).b].insts[k].args;
      |args| == 1 && args[0].Imm? ==> Operands(f, o, n, k) == [args[0].c]
  {
    hide Steps, Exec;
    PointReached(f, ty, o, n, k);
    OperandsAre(f, ty, o, n, k);
  }

  // ---------------------------------------------------------------- the edge that decided

  /** The last step of a run that takes an edge. */
  lemma {:induction false} LastTake(p: seq<nat>, s: nat, e: nat, i: nat, n: nat) returns (j: nat)
    requires Takes(p, i, s, e) && i < n <= |p|
    requires forall m: nat :: m >= n ==> !Takes(p, m, s, e)
    ensures Takes(p, j, s, e) && forall m: nat :: Takes(p, m, s, e) ==> m <= j
    decreases n
  {
    if Takes(p, n - 1, s, e) {
      j := n - 1;
    } else {
      j := LastTake(p, s, e, i, n - 1);
    }
  }

  lemma {:induction false} OnlyIndex(s: seq<nat>, x: nat, i: nat, j: nat)
    requires Count(s, x) == 1 && i < |s| && j < |s| && s[i] == x && s[j] == x
    ensures i == j
  {
    assert j > 0 ==> s[1..][j - 1] == x;
    assert i > 0 ==> s[1..][i - 1] == x;
    if i > 0 && j > 0 {
      OnlyIndex(s[1..], x, i - 1, j - 1);
    }
  }

  /** When the deciding edge is taken the condition has the recorded outcome. */
  lemma EdgeDecides(f: Func, ty: Ref -> bool, o: Oracle, j: nat, s: nat, i: nat, cond: Condition)
    requires Simplifiable(f, ty) && Decides(f, s, i, cond)
    requires Executing(f, o, j) && Steps(f, o, j + 1).At? && Steps(f, o, j).b == s
    requires Steps(f, o, j + 1).b == f.g.succs[s][i]
    ensures ValueAt(f, o, j, |f.blocks[s].insts| - 1, cond.arg).Some?
    ensures ValueAt(f, o, j, |f.blocks[s].insts| - 1, cond.arg).value in {0, 1} ==>
      (ValueAt(f, o, j, |f.blocks[s].insts| - 1, cond.arg).value != 0 <==> cond.flag)
  {
    hide Dom, RelOf, Holds, EnterPhis, Write, Reachable;
    var k := |f.blocks[s].insts| - 1;
    var t := Steps(f, o, j);
    PointReached(f, ty, o, j, k);
    PointReached(f, ty, o, j, k + 1);
    OperandsAre(f, ty, o, j, k);
    var p, p' := Exec(f, o, s, k, t.e, t.log), Exec(f, o, s, k + 1, t.e, t.log);
    assert p' == ExecInst(s, k, f.blocks[s].insts[k], o, p.e, p.log);
    OperandsSet(f, s, k, p.e);
    assert p'.last == Operands(f, o, j, k);
    var x := TakenIndex(f, o, j);
    OnlyIndex(f.g.succs[s], f.g.succs[s][i], i, x);
  }

  /** The index that the terminator of the block has selected. */
  lemma TakenIndex(f: Func, o: Oracle, j: nat) returns (x: nat)
    requires f.Valid() && Steps(f, o, j + 1).At?
    ensures Steps(f, o, j).At? && Steps(f, o, j).b < |f.blocks|
    ensures var t := Steps(f, o, j); var p := AtEnd(f, o, t); var insts := f.blocks[t.b].insts;
      && p.Pt? && x == Target(insts[|insts| - 1].op, p.last, o, p.log)
      && x < |f.g.succs[t.b]| && f.g.succs[t.b][x] == Steps(f, o, j + 1).b
  {
    hide Exec, EnterPhis, Target;
    StepTaken(f, o, j);
    var t := Steps(f, o, j);
    var p, insts := AtEnd(f, o, t), f.blocks[t.b].insts;
    assert Steps(f, o, j + 1) == Leave(f, o, t.b, p);
    x := Target(insts[|insts| - 1].op, p.last, o, p.log);
  }

  /** The comparison behind a condition: the step at which it was last evaluated before the
      current block, and the outcome it had. */
  lemma PriorOutcome(f: Func, ty: Ref -> bool, o: Oracle, n: nat, cond: Condition) returns (i: nat)
    requires Simplifiable(f, ty) && Steps(f, o, n).At? && Executing(f, o, n)
    requires CondAt(f, Steps(f, o, n).b, cond)
    requires InstAtRef(f, cond.arg).Some? && IsCmp(InstAtRef(f, cond.arg).value)
    ensures var r := cond.arg.r;
      && i < n && Executing(f, o, i) && Steps(f, o, i).b == r.b && Dom(f.g, r.b, Steps(f, o, n).b)
      && r.b in Trail(f, o, n) && i == Last(Trail(f, o, n), r.b)
      && ValueAt(f, o, i, r.k + 1, Use(Res(r.b, r.k, 0))) == Some(Bool(cond.flag))
  {
    hide Steps, Exec, Simplifiable, Trail, ValueAt, Last, Decides, Dom, EdgeDom, CondAt, Available, Reachable, Takes;
    SimplifiableValid(f, ty);
    var b := Steps(f, o, n).b;
    var s, x := CondSource(f, b, cond);
    var e := f.g.succs[s][x];
    EdgeDomTrans(f.g, s, e, b);
    var j := TakenAt(f, o, n, s, e);
    CondOperand(f, ty, s, x, cond);
    EdgeDecides(f, ty, o, j, s, x, cond);
    i := LastComputed(f, ty, o, j, |f.blocks[s].insts| - 1, cond.arg.r);
    CmpIsBool(f, ty, o, i, cond.arg.r);
    DomOfEdge(f, s, x, b, cond.arg.r.b);
    SameLast(f, o, n, j, s, e, cond.arg.r.b);
  }

  lemma CondSource(f: Func, b: nat, cond: Condition) returns (s: nat, x: nat)
    requires f.Valid() && CondAt(f, b, cond)
    ensures s < |f.blocks| && x < |f.g.succs[s]| && Reachable(f.g, s) && Decides(f, s, x, cond)
    ensures EdgeDom(f.g, s, f.g.succs[s][x], f.g.succs[s][x]) && Dom(f.g, f.g.succs[s][x], b)
  {
    s, x :| Decides(f, s, x, cond) && EdgeDom(f.g, s, f.g.succs[s][x], f.g.succs[s][x]) && Dom(f.g, f.g.succs[s][x], b);
  }

  /** The last step of the run that takes an edge every run to its block takes. */
  lemma TakenAt(f: Func, o: Oracle, n: nat, s: nat, e: nat) returns (j: nat)
    requires f.Valid() && Executing(f, o, n) && EdgeDom(f.g, s, e, Steps(f, o, n).b)
    ensures j < n && Executing(f, o, j) && Steps(f, o, j + 1).At? && Steps(f, o, j).b == s && Steps(f, o, j + 1).b == e
    ensures Takes(Trail(f, o, n), j, s, e) && forall m: nat :: Takes(Trail(f, o, n), m, s, e) ==> m <= j
  {
    hide Steps;
    TrailIsRun(f, o, n);
    var p := Trail(f, o, n);
    var i: nat :| Takes(p, i, s, e);
    j := LastTake(p, s, e, i, |p|);
    TrailAt(f, o, n, j);
    TrailAt(f, o, n, j + 1);
  }

  /** The condition operand is a comparison result available at the terminator. */
  lemma CondOperand(f: Func, ty: Ref -> bool, s: nat, x: nat, cond: Condition)
    requires Simplifiable(f, ty) && Decides(f, s, x, cond) && InstAtRef(f, cond.arg).Some?
    requires IsCmp(InstAtRef(f, cond.arg).value)
    ensures cond.arg.Use? && IsResult(f, cond.arg.r) && cond.arg.r.i == 0
    ensures Available(f, cond.arg.r, s, |f.blocks[s].insts| - 1)
  {
    var k := |f.blocks[s].insts| - 1;
    assert BlockOk(f, s) && InstOk(f, s, k);
    assert OperandOk(f, f.blocks[s].insts[k].args[0], s, k) && CompleteBlock(f, s);
    assert CompleteArg(f, f.blocks[s].insts[k].args[0]) || UndefMove(f.blocks[s].insts[k]);
  }

  lemma CmpIsBool(f: Func, ty: Ref -> bool, o: Oracle, i: nat, r: Ref)
    requires Simplifiable(f, ty) && Executing(f, o, i) && r.Res? && r.b == Steps(f, o, i).b && r.i == 0
    requires r.k < |f.blocks[r.b].insts| && IsCmp(f.blocks[r.b].insts[r.k])
    ensures ValueAt(f, o, i, r.k + 1, Use(r)).Some? && ValueAt(f, o, i, r.k + 1, Use(r)).value in {0, 1}
  {
    hide Steps;
    JustComputed(f, ty, o, i, r.k);
    OperandsAre(f, ty, o, i, r.k);
  }

  lemma DomOfEdge(f: Func, s: nat, x: nat, b: nat, a: nat)
    requires f.Valid() && s < |f.blocks| && x < |f.g.succs[s]| && Reachable(f.g, s)
    requires EdgeDom(f.g, s, f.g.succs[s][x], b)
    requires Dom(f.g, a, s) || a == s
    ensures Dom(f.g, a, s) && Dom(f.g, a, b)
  {
    var e := f.g.succs[s][x];
    DomReflexive(f.g, s);
    forall p | RunTo(f.g, p, b)
      ensures a in p
    {
      var i: nat :| Takes(p, i, s, e);
      PrefixIsRun(f.g, p, i);
      assert a in p[..i + 1];
    }
  }

  /** The last visit before the edge is the last visit in the whole run. */
  lemma SameLast(f: Func, o: Oracle, n: nat, j: nat, s: nat, e: nat, a: nat)
    requires f.Valid() && Executing(f, o, n) && j < n && Steps(f, o, j).At?
    requires EdgeDom(f.g, s, e, Steps(f, o, n).b) && Dom(f.g, a, s)
    requires Takes(Trail(f, o, n), j, s, e) && forall m: nat :: Takes(Trail(f, o, n), m, s, e) ==> m <= j
    requires a in Trail(f, o, j)
    ensures a in Trail(f, o, n) && Last(Trail(f, o, n), a) == Last(Trail(f, o, j), a)
  {
    hide Steps, Dom, EdgeDom;
    TrailIsRun(f, o, n);
    TrailAt(f, o, n, j);
    var p, q := Trail(f, o, n), Trail(f, o, j);
    assert q == p[..j + 1];
    var l := Last(q, a);
    assert p[l] == a;
    NotAfterEdge(f.g, a, s, e, Steps(f, o, n).b, p, j, Last(p, a));
    LastIsLast(p, a, l);
    assert q[Last(p, a)] == a;
    LastIsLast(q, a, Last(p, a));
  }

  /** Operands of a comparison keep their values from its last evaluation on. */
  lemma OperandStill(f: Func, ty: Ref -> bool, o: Oracle, n: nat, k: nat, i: nat, m: nat, a: Operand)
    requires Simplifiable(f, ty) && Executing(f, o, n) && Executing(f, o, i) && i < n
    requires k <= |f.blocks[Steps(f, o, n).b].insts| && m <= |f.blocks[Steps(f, o, i).b].insts|
    requires Dom(f.g, Steps(f, o, i).b, Steps(f, o, n).b)
    requires Steps(f, o, i).b in Trail(f, o, n) && i == Last(Trail(f, o, n), Steps(f, o, i).b)
    requires OperandOk(f, a, Steps(f, o, i).b, m) && CompleteArg(f, a)
    ensures ValueAt(f, o, n, k, a) == ValueAt(f, o, i, m, a)
  {
    hide Steps, Exec, Simplifiable, Trail, Last, Dom;
    SimplifiableValid(f, ty);
    PointReached(f, ty, o, n, k);
    PointReached(f, ty, o, i, m);
    if a.Use? {
      var c := Steps(f, o, i).b;
      TrailIsRun(f, o, n);
      VisitedBefore(f.g, Trail(f, o, n), a.r.b, c, Steps(f, o, n).b);
      NotAgainSince(f, o, n, a.r.b, i);
      ValueSince(f, o, i, m, n, k, a.r);
    }
  }

  lemma VisitedBefore(g: Graph, p: seq<nat>, a: nat, c: nat, b: nat)
    requires RunTo(g, p, b) && Dom(g, c, b) && (a == c || Dom(g, a, c))
    ensures a in p && c in p && Last(p, a) <= Last(p, c)
  {
    if a != c {
      LastVisitOrder(g, a, c, b, p);
    }
  }

  lemma NotAgainSince(f: Func, o: Oracle, n: nat, b: nat, i: nat)
    requires f.Valid() && Steps(f, o, n).At? && b in Trail(f, o, n) && Last(Trail(f, o, n), b) <= i
    ensures forall m: nat :: i < m <= n && Steps(f, o, m).At? ==> Steps(f, o, m).b != b
  {
    NotAgain(f, o, n, b);
  }

  /** Equal operands of the earlier and the later comparison read the same value. */
  lemma EqualOperands(f: Func, ty: Ref -> bool, o: Oracle, n: nat, k: nat, i: nat, m: nat, a: Operand, prior: Operand)
    requires Simplifiable(f, ty) && Executing(f, o, n) && Executing(f, o, i) && i < n
    requires k <= |f.blocks[Steps(f, o, n).b].insts| && m <= |f.blocks[Steps(f, o, i).b].insts|
    requires Dom(f.g, Steps(f, o, i).b, Steps(f, o, n).b)
    requires Steps(f, o, i).b in Trail(f, o, n) && i == Last(Trail(f, o, n), Steps(f, o, i).b)
    requires OperandOk(f, prior, Steps(f, o, i).b, m) && CompleteArg(f, prior)
    requires OperandOk(f, a, Steps(f, o, n).b, k) && CompleteArg(f, a)
    requires IsEqual(f, a, prior)
    ensures ValueAt(f, o, n, k, a) == ValueAt(f, o, i, m, prior)
  {
    hide Steps, Exec, Simplifiable, Trail, Last, Dom, ValueAt;
    SimplifiableValid(f, ty);
    if a == prior {
      OperandStill(f, ty, o, n, k, i, m, a);
    } else {
      ConstantHolds(f, ty, o, n, k, a);
      ConstantHolds(f, ty, o, i, m, prior);
    }
  }

  lemma InstOperands(f: Func, ty: Ref -> bool, b: nat, k: nat)
    requires Simplifiable(f, ty) && b < |f.blocks| && Reachable(f.g, b) && k < |f.blocks[b].insts|
    ensures forall j :: 0 <= j < |f.blocks[b].insts[k].args| ==>
      && OperandOk(f, f.blocks[b].insts[k].args[j], b, k)
      && (CompleteArg(f, f.blocks[b].insts[k].args[j]) || UndefMove(f.blocks[b].insts[k]))
    ensures Shaped(f.blocks[b].insts[k], b, k, ty)
  {
    assert BlockOk(f, b) && InstOk(f, b, k) && CompleteBlock(f, b);
  }

  /** A comparison reads no undefined value directly. */
  lemma CmpOperands(f: Func, ty: Ref -> bool, b: nat, k: nat)
    requires Simplifiable(f, ty) && b < |f.blocks| && Reachable(f.g, b) && k < |f.blocks[b].insts|
    requires IsCmp(f.blocks[b].insts[k])
    ensures forall j :: 0 <= j < |f.blocks[b].insts[k].args| ==>
      OperandOk(f, f.blocks[b].insts[k].args[j], b, k) && CompleteArg(f, f.blocks[b].insts[k].args[j])
    ensures Shaped(f.blocks[b].insts[k], b, k, ty)
  {
    InstOperands(f, ty, b, k);
  }

  /** Comparisons of equal operands compare the same type. */
  lemma SameType(f: Func, ty: Ref -> bool, b: nat, k: nat, c: nat, m: nat)
    requires Simplifiable(f, ty) && b < |f.blocks| && Reachable(f.g, b) && k < |f.blocks[b].insts|
    requires c < |f.blocks| && Reachable(f.g, c) && m < |f.blocks[c].insts|
    requires SameComparison(f, f.blocks[b].insts[k], f.blocks[c].insts[m])
    ensures f.blocks[b].insts[k].op.fp == f.blocks[c].insts[m].op.fp
  {
    hide Simplifiable, Reachable, OperandOk, CompleteArg, UndefMove, IsConstantInst, IsEqual;
    SimplifiableValid(f, ty);
    CmpOperands(f, ty, b, k);
    CmpOperands(f, ty, c, m);
    var a, a' := f.blocks[b].insts[k].args[0], f.blocks[c].insts[m].args[0];
    if a != a' {
      SameConstantType(f, ty, a, a');
    }
  }

  lemma SameConstantType(f: Func, ty: Ref -> bool, a: Operand, a': Operand)
    requires Simplifiable(f, ty) && IsEqual(f, a, a') && a != a' && CompleteArg(f, a) && CompleteArg(f, a')
    ensures a.Use? && a'.Use? && ty(a.r) == ty(a'.r)
  {
    hide DefsDominateUses, Complete, Terminated;
    assert Shaped(f.blocks[a.r.b].insts[a.r.k], a.r.b, a.r.k, ty);
    assert Shaped(f.blocks[a'.r.b].insts[a'.r.k], a'.r.b, a'.r.k, ty);
  }

  /** On a run the rewritten comparison has the constant it is replaced with exactly when it has
      the code of the earlier one, or its operands are ordered, or the code is negated by its
      inverse. */
  lemma RedundantExact(f: Func, ty: Ref -> bool, o: Oracle, n: nat, k: nat, cond: Condition)
    requires Simplifiable(f, ty) && Executing(f, o, n)
    requires k < |f.blocks[Steps(f, o, n).b].insts| && CondAt(f, Steps(f, o, n).b, cond)
    requires IsRedundant(f, f.blocks[Steps(f, o, n).b].insts[k], cond).Some?
    ensures InstAtRef(f, cond.arg).Some? && CmpAt(f, cond.arg.r.b, cond.arg.r.k)
    ensures CmpAt(f, Steps(f, o, n).b, k) && Dom(f.g, cond.arg.r.b, Steps(f, o, n).b)
    ensures |Operands(f, o, n, k)| == 2
    ensures var b, x := Steps(f, o, n).b, Operands(f, o, n, k);
      var cmp, prior := f.blocks[b].insts[k], InstAtRef(f, cond.arg).value;
      ValueAt(f, o, n, k + 1, Use(Res(b, k, 0))) == Some(Bool(IsRedundant(f, cmp, cond).value)) <==>
      cmp.op.cc == prior.op.cc || Exact(prior.op.cc) || RelOf(prior.op.cc, prior.op.fp, x[0], x[1], o) != Unordered
  {
    hide Steps, Exec, Simplifiable, Trail, Last, Dom, ValueAt, CondAt, RelOf, Holds, CompleteArg, OperandOk, IsEqual;
    SimplifiableValid(f, ty);
    var b := Steps(f, o, n).b;
    var i := PriorOutcome(f, ty, o, n, cond);
    var c, m := cond.arg.r.b, cond.arg.r.k;
    var cmp, prior := f.blocks[b].insts[k], f.blocks[c].insts[m];
    PointReached(f, ty, o, n, k);
    PointReached(f, ty, o, i, m);
    CmpOperands(f, ty, b, k);
    CmpOperands(f, ty, c, m);
    EqualOperands(f, ty, o, n, k, i, m, cmp.args[0], prior.args[0]);
    EqualOperands(f, ty, o, n, k, i, m, cmp.args[1], prior.args[1]);
    JustComputed(f, ty, o, n, k);
    JustComputed(f, ty, o, i, m);
    OperandsAre(f, ty, o, n, k);
    OperandsAre(f, ty, o, i, m);
    var x, y := Operands(f, o, n, k), Operands(f, o, i, m);
    assert x == y;
    SameType(f, ty, b, k, c, m);
    InverseNegates(prior.op.cc, prior.op.fp, y[0], y[1], o);
  }

  /** In an invertible function it has that constant on every run. */
  lemma RedundantHasConstant(f: Func, ty: Ref -> bool, o: Oracle, n: nat, k: nat, cond: Condition)
    requires Simplifiable(f, ty) && f.Valid() && Invertible(f) && Executing(f, o, n)
    requires k < |f.blocks[Steps(f, o, n).b].insts| && CondAt(f, Steps(f, o, n).b, cond)
    requires IsRedundant(f, f.blocks[Steps(f, o, n).b].insts[k], cond).Some?
    ensures var b := Steps(f, o, n).b;
      ValueAt(f, o, n, k + 1, Use(Res(b, k, 0))) == Some(Bool(IsRedundant(f, f.blocks[b].insts[k], cond).value))
  {
    hide Steps, Simplifiable, ValueAt, CondAt, RelOf, Holds, Operands, Dom, Exact;
    RedundantExact(f, ty, o, n, k, cond);
    var b, x := Steps(f, o, n).b, Operands(f, o, n, k);
    var cmp, prior := f.blocks[b].insts[k], InstAtRef(f, cond.arg).value;
    assert SafePair(f, cmp, prior);
    InverseNegates(prior.op.cc, prior.op.fp, x[0], x[1], o);
  }

  // ---------------------------------------------------------------- rewriting one comparison

  /** The comparison becomes a move of a constant: its uses read the constant. */
  function Rewritten(f: Func, b: nat, k: nat, flag: bool): (g: Func)
    requires b < |f.blocks| && k < |f.blocks[b].insts|
    ensures g.g == f.g && |g.blocks| == |f.blocks|
    ensures f.Valid() ==> g.Valid()
  {
    var inst := Inst(Mov(false), [Imm(Bool(flag))], f.blocks[b].insts[k].rets);
    f.(blocks := f.blocks[b := f.blocks[b].(insts := f.blocks[b].insts[k := inst])])
  }

  /** On every run the comparison evaluates to flag. */
  ghost predicate AlwaysIs(f: Func, b: nat, k: nat, flag: bool)
    requires f.Valid() && b < |f.blocks| && k < |f.blocks[b].insts|
  {
    forall o: Oracle, n: nat :: Executing(f, o, n) && Steps(f, o, n).b == b ==>
      ValueAt(f, o, n, k + 1, Use(Res(b, k, 0))) == Some(Bool(flag))
  }

  /** Points of the two programs agree, except for the operands read last right after the
      rewritten instruction. */
  ghost predicate Parallel(p: Point, p': Point, rewritten: bool) {
    && p.Pt? && p'.Pt? && p'.log == p.log && AgreeBut({}, p.e, p'.e)
    && (!rewritten ==> p'.last == p.last)
  }

  lemma {:induction false} RewrittenBlock(f: Func, ty: Ref -> bool, b: nat, k: nat, flag: bool, o: Oracle, n: nat,
                                          j: nat, e': Env)
    requires Simplifiable(f, ty) && b < |f.blocks| && k < |f.blocks[b].insts| && IsCmp(f.blocks[b].insts[k])
    requires AlwaysIs(f, b, k, flag) && Executing(f, o, n)
    requires j <= |f.blocks[Steps(f, o, n).b].insts| && AgreeBut({}, Steps(f, o, n).e, e')
    ensures var s := Steps(f, o, n); var g := Rewritten(f, b, k, flag);
      && j <= |g.blocks[s.b].insts|
      && Parallel(Exec(f, o, s.b, j, s.e, s.log), Exec(g, o, s.b, j, e', s.log), s.b == b && j == k + 1)
  {
    hide Steps, Simplifiable, AlwaysIs, ExecInst;
    SimplifiableValid(f, ty);
    if j > 0 {
      RewrittenBlock(f, ty, b, k, flag, o, n, j - 1, e');
      var s, g := Steps(f, o, n), Rewritten(f, b, k, flag);
      var p, p' := Exec(f, o, s.b, j - 1, s.e, s.log), Exec(g, o, s.b, j - 1, e', s.log);
      PointReached(f, ty, o, n, j);
      var inst := f.blocks[s.b].insts[j - 1];
      if s.b == b && j == k + 1 {
        RewrittenInst(f, ty, b, k, flag, o, n, p'.e);
      } else {
        assert g.blocks[s.b].insts[j - 1] == inst;
        ExecInstAgrees(s.b, j - 1, inst, inst, o, {}, p.e, p'.e, p.log);
      }
    }
  }

  lemma RewrittenInst(f: Func, ty: Ref -> bool, b: nat, k: nat, flag: bool, o: Oracle, n: nat, e': Env)
    requires Simplifiable(f, ty) && b < |f.blocks| && k < |f.blocks[b].insts| && IsCmp(f.blocks[b].insts[k])
    requires AlwaysIs(f, b, k, flag) && Executing(f, o, n) && Steps(f, o, n).b == b
    requires var s := Steps(f, o, n); var p := Exec(f, o, b, k, s.e, s.log); p.Pt? && AgreeBut({}, p.e, e')
    ensures var s := Steps(f, o, n); var p := Exec(f, o, b, k, s.e, s.log);
      Parallel(Exec(f, o, b, k + 1, s.e, s.log),
               ExecInst(b, k, Inst(Mov(false), [Imm(Bool(flag))], f.blocks[b].insts[k].rets), o, e', p.log), true)
  {
    hide Steps, Simplifiable, Parallel, ExecInst, AgreeBut;
    SimplifiableValid(f, ty);
    PointReached(f, ty, o, n, k + 1);
    var s := Steps(f, o, n);
    var p := Exec(f, o, b, k, s.e, s.log);
    var inst := f.blocks[b].insts[k];
    assert Exec(f, o, b, k + 1, s.e, s.log) == ExecInst(b, k, inst, o, p.e, p.log);
    assert ValueAt(f, o, n, k + 1, Use(Res(b, k, 0))) == Some(Bool(flag));
    MoveInstead(b, k, inst, flag, o, p.e, e', p.log);
  }

  /** Moving what a comparison would compute has the effect of the comparison. */
  lemma MoveInstead(b: nat, k: nat, inst: Inst, flag: bool, o: Oracle, e: Env, e': Env, log: seq<Event>)
    requires IsCmp(inst) && AgreeBut({}, e, e')
    requires var q := ExecInst(b, k, inst, o, e, log); q.Pt? && q.e.refs(Res(b, k, 0)) == Some(Bool(flag))
    ensures Parallel(ExecInst(b, k, inst, o, e, log),
                     ExecInst(b, k, Inst(Mov(false), [Imm(Bool(flag))], inst.rets), o, e', log), true)
  {
    var inst' := Inst(Mov(false), [Imm(Bool(flag))], inst.rets);
    assert Ssa.Defined(inst'.args, e') && Values(inst'.args, e') == [Bool(flag)];
  }

  lemma {:induction false} RewriteKeepsRuns(f: Func, ty: Ref -> bool, b: nat, k: nat, flag: bool, o: Oracle, n: nat)
    requires Simplifiable(f, ty) && b < |f.blocks| && k < |f.blocks[b].insts| && IsCmp(f.blocks[b].insts[k])
    requires AlwaysIs(f, b, k, flag)
    ensures var g := Rewritten(f, b, k, flag);
      Seen(Steps(g, o, n)) == Seen(Steps(f, o, n)) &&
        (Steps(f, o, n).At? ==> AgreeBut({}, Steps(f, o, n).e, Steps(g, o, n).e))
  {
    hide Simplifiable, AlwaysIs, Rewritten, Steps, Step, Exec;
    SimplifiableValid(f, ty);
    var g := Rewritten(f, b, k, flag);
    StepsNext(f, o, 0);
    StepsNext(g, o, 0);
    if n > 0 {
      RewriteKeepsRuns(f, ty, b, k, flag, o, n - 1);
      StepsNext(f, o, n - 1);
      StepsNext(g, o, n - 1);
      var s, s' := Steps(f, o, n - 1), Steps(g, o, n - 1);
      if s.At? {
        PointReached(f, ty, o, n - 1, 0);
        RewrittenBlock(f, ty, b, k, flag, o, n - 1, |f.blocks[s.b].insts|, s'.e);
        SameEnd(f, ty, b, k, flag, o, s, s');
      }
    }
  }

  lemma SameEnd(f: Func, ty: Ref -> bool, b: nat, k: nat, flag: bool, o: Oracle, s: State, s': State)
    requires Simplifiable(f, ty) && b < |f.blocks| && k < |f.blocks[b].insts| && IsCmp(f.blocks[b].insts[k])
    requires s.At? && s'.At? && s.b == s'.b < |f.blocks| && s.log == s'.log
    requires var g := Rewritten(f, b, k, flag); var m := |f.blocks[s.b].insts|;
      m <= |g.blocks[s.b].insts| && Parallel(Exec(f, o, s.b, m, s.e, s.log), Exec(g, o, s.b, m, s'.e, s.log),
        s.b == b && m == k + 1)
    ensures var g := Rewritten(f, b, k, flag);
      && Seen(Step(g, o, s')) == Seen(Step(f, o, s))
      && (Step(f, o, s).At? ==> AgreeBut({}, Step(f, o, s).e, Step(g, o, s').e))
  {
    hide DefsDominateUses, Complete, Exec;
    var g := Rewritten(f, b, k, flag);
    var m := |f.blocks[s.b].insts|;
    assert Terminated(f.blocks[s.b].insts);
    assert |g.blocks[s.b].insts| == m;
    assert g.blocks[s.b].insts[m - 1] == f.blocks[s.b].insts[m - 1];
    var t := Step(f, o, s);
    if t.At? {
      assert g.blocks[t.b].phis == f.blocks[t.b].phis;
      var p, p' := Exec(f, o, s.b, m, s.e, s.log), Exec(g, o, s.b, m, s'.e, s.log);
      forall a: Operand
        ensures Read(a, p.e) == Read(a, p'.e)
      {
      }
    }
  }

  lemma RewriteStaysSimplifiable(f: Func, ty: Ref -> bool, b: nat, k: nat, flag: bool)
    requires Simplifiable(f, ty) && b < |f.blocks| && k < |f.blocks[b].insts| && IsCmp(f.blocks[b].insts[k])
    ensures Simplifiable(Rewritten(f, b, k, flag), ty)
  {
    var g := Rewritten(f, b, k, flag);
    forall c: nat | c < |g.blocks|
      ensures g.blocks[c].phis == f.blocks[c].phis && |g.blocks[c].insts| == |f.blocks[c].insts|
      ensures forall m: nat :: m < |g.blocks[c].insts| && !(c == b && m == k) ==>
        g.blocks[c].insts[m] == f.blocks[c].insts[m]
    {
    }
    RewriteComplete(f, b, k, flag);
    RewriteDominates(f, b, k, flag);
    forall c: nat | c < |g.blocks|
      ensures Terminated(g.blocks[c].insts)
    {
      assert Terminated(f.blocks[c].insts);
    }
    forall c: nat, m: nat | c < |g.blocks| && m < |g.blocks[c].insts|
      ensures Shaped(g.blocks[c].insts[m], c, m, ty)
    {
      assert Shaped(f.blocks[c].insts[m], c, m, ty);
    }
  }

  /** Rewriting makes no new pairs: the constants it puts in are no floating-point operands. */
  lemma RewriteStaysInvertible(f: Func, ty: Ref -> bool, b: nat, k: nat, flag: bool)
    requires Simplifiable(f, ty) && Invertible(f) && b < |f.blocks| && k < |f.blocks[b].insts|
    requires IsCmp(f.blocks[b].insts[k])
    ensures Invertible(Rewritten(f, b, k, flag))
  {
    hide Simplifiable, Dom, Reachable, SafePair, Rewritten;
    var g := Rewritten(f, b, k, flag);
    RewriteStaysSimplifiable(f, ty, b, k, flag);
    SimplifiableValid(f, ty);
    SimplifiableValid(g, ty);
    forall c: nat, m: nat, d: nat, j: nat | CmpAt(g, c, m) && CmpAt(g, d, j) && Dom(g.g, d, c)
      ensures SafePair(g, g.blocks[c].insts[m], g.blocks[d].insts[j])
    {
      KeptCmp(f, b, k, flag, c, m);
      KeptCmp(f, b, k, flag, d, j);
      assert SafePair(f, f.blocks[c].insts[m], f.blocks[d].insts[j]);
      PairStaysSafe(f, ty, b, k, flag, c, m, d, j);
    }
  }

  lemma PairStaysSafe(f: Func, ty: Ref -> bool, b: nat, k: nat, flag: bool, c: nat, m: nat, d: nat, j: nat)
    requires Simplifiable(f, ty) && f.Valid() && b < |f.blocks| && k < |f.blocks[b].insts|
    requires IsCmp(f.blocks[b].insts[k]) && CmpAt(f, c, m) && CmpAt(f, d, j)
    requires SafePair(f, f.blocks[c].insts[m], f.blocks[d].insts[j])
    requires CmpAt(Rewritten(f, b, k, flag), c, m) && CmpAt(Rewritten(f, b, k, flag), d, j)
    requires Rewritten(f, b, k, flag).blocks[c].insts[m] == f.blocks[c].insts[m]
    requires Rewritten(f, b, k, flag).blocks[d].insts[j] == f.blocks[d].insts[j]
    ensures SafePair(Rewritten(f, b, k, flag), f.blocks[c].insts[m], f.blocks[d].insts[j])
  {
    hide Simplifiable, Reachable, Rewritten, IsConstantInst, Exact, GetInverseCond, InstAtRef;
    var g := Rewritten(f, b, k, flag);
    RewriteStaysSimplifiable(f, ty, b, k, flag);
    var cmp, prior := f.blocks[c].insts[m], f.blocks[d].insts[j];
    if SameComparison(g, cmp, prior) && prior.op.fp {
      SameType(g, ty, c, m, d, j);
      forall i | 0 <= i < 2
        ensures IsEqual(f, cmp.args[i], prior.args[i])
      {
        SameConstant(f, ty, b, k, flag, c, m, i);
        SameConstant(f, ty, b, k, flag, d, j, i);
      }
    }
  }

  lemma KeptCmp(f: Func, b: nat, k: nat, flag: bool, c: nat, m: nat)
    requires f.Valid() && b < |f.blocks| && k < |f.blocks[b].insts| && CmpAt(Rewritten(f, b, k, flag), c, m)
    ensures CmpAt(f, c, m) && Rewritten(f, b, k, flag).blocks[c].insts[m] == f.blocks[c].insts[m]
  {
  }

  /** The operands of a floating-point comparison are defined as before. */
  lemma SameConstant(f: Func, ty: Ref -> bool, b: nat, k: nat, flag: bool, c: nat, m: nat, i: nat)
    requires Simplifiable(f, ty) && b < |f.blocks| && k < |f.blocks[b].insts| && IsCmp(f.blocks[b].insts[k])
    requires f.Valid() && CmpAt(f, c, m) && f.blocks[c].insts[m].op.fp && i < 2
    ensures var a := f.blocks[c].insts[m].args[i]; InstAtRef(Rewritten(f, b, k, flag), a) == InstAtRef(f, a)
  {
    CmpOperands(f, ty, c, m);
    ShapedAt(f, ty, b, k);
    hide Simplifiable;
    var a := f.blocks[c].insts[m].args[i];
    if a.r.Res? && a.r.b == b && a.r.k == k {
      assert false;
    }
  }

  lemma RewriteComplete(f: Func, b: nat, k: nat, flag: bool)
    requires f.Valid() && Complete(f) && b < |f.blocks| && k < |f.blocks[b].insts| && IsCmp(f.blocks[b].insts[k])
    ensures Complete(Rewritten(f, b, k, flag))
  {
    var g := Rewritten(f, b, k, flag);
    forall a: Operand
      ensures CompleteArg(g, a) <==> CompleteArg(f, a)
    {
    }
    forall c: nat | c < |g.blocks| && Reachable(g.g, c)
      ensures CompleteBlock(g, c)
    {
      assert CompleteBlock(f, c);
    }
  }

  lemma RewriteDominates(f: Func, b: nat, k: nat, flag: bool)
    requires f.Valid() && DefsDominateUses(f) && b < |f.blocks| && k < |f.blocks[b].insts|
    requires IsCmp(f.blocks[b].insts[k])
    ensures DefsDominateUses(Rewritten(f, b, k, flag))
  {
    hide Dom;
    var g := Rewritten(f, b, k, flag);
    forall a: Operand, c: nat, m: nat
      ensures OperandOk(g, a, c, m) <==> OperandOk(f, a, c, m)
    {
    }
    forall c: nat | c < |g.blocks| && Reachable(g.g, c)
      ensures BlockOk(g, c)
    {
      assert BlockOk(f, c);
      forall m | 0 <= m < |g.blocks[c].insts|
        ensures InstOk(g, c, m)
      {
        assert InstOk(f, c, m);
      }
      forall i | 0 <= i < |g.g.succs[c]|
        ensures EdgeOk(g, c, g.g.succs[c][i])
      {
        var s := g.g.succs[c][i];
        assert EdgeOk(f, c, s);
        forall id | id in g.blocks[s].phis
          ensures PhiOk(g, c, s, id)
        {
          assert PhiOk(f, c, s, id);
        }
      }
    }
  }

  /** Rewriting keeps the terminators, and with them what the conditions rest on. */
  ghost predicate SameTerminators(f: Func, g: Func) {
    && g.g == f.g && |g.blocks| == |f.blocks|
    && forall b: nat :: b < |f.blocks| ==>
         var i, j := f.blocks[b].insts, g.blocks[b].insts;
         |i| == |j| && (|i| > 0 ==> i[|i| - 1] == j[|j| - 1])
  }

  lemma CondsStay(f: Func, g: Func, b: nat, conds: seq<Condition>)
    requires f.Valid() && g.Valid() && SameTerminators(f, g) && CondsAt(f, b, conds)
    ensures CondsAt(g, b, conds)
  {
    hide Dom, EdgeDom;
    forall c | c in conds
      ensures CondAt(g, b, c)
    {
      var s, i := CondSource(f, b, c);
      assert Decides(g, s, i, c);
    }
  }
}
