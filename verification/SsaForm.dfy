/** SSA form: every definition dominates its uses, and what that means on runs. */
module SsaForm {
  import opened Cfg
  import opened Options
  import opened Ssa

  /** The instruction a reference points into. */
  datatype InstId = PhiId(b: nat, id: nat) | InstAt(b: nat, k: nat)

  function InstOf(r: Ref): InstId {
    match r
    case Phi(b, id) => PhiId(b, id)
    case Res(b, k, _) => InstAt(b, k)
  }

  predicate Exists(f: Func, i: InstId) {
    && i.b < |f.blocks|
    && match i
       case PhiId(b, id) => id in f.blocks[b].phis
       case InstAt(b, k) => k < |f.blocks[b].insts|
  }

  /** The definition exists and dominates the point before instruction k of b. */
  ghost predicate Available(f: Func, r: Ref, b: nat, k: nat) {
    && Exists(f, InstOf(r))
    && (if r.b == b then (r.Res? ==> r.k < k) else Dom(f.g, r.b, b))
  }

  ghost predicate OperandOk(f: Func, a: Operand, b: nat, k: nat) {
    a.Use? ==> Available(f, a.r, b, k)
  }

  ghost predicate InstOk(f: Func, b: nat, k: nat)
    requires b < |f.blocks| && k < |f.blocks[b].insts|
  {
    forall j :: 0 <= j < |f.blocks[b].insts[k].args| ==> OperandOk(f, f.blocks[b].insts[k].args[j], b, k)
  }

  /** Every PHI of s has an operand for b that is available at the end of b. */
  ghost predicate EdgeOk(f: Func, b: nat, s: nat)
    requires b < |f.blocks| && s < |f.blocks|
  {
    forall id :: id in f.blocks[s].phis ==> PhiOk(f, b, s, id)
  }

  ghost predicate PhiOk(f: Func, b: nat, s: nat, id: nat)
    requires b < |f.blocks| && s < |f.blocks| && id in f.blocks[s].phis
  {
    b in f.blocks[s].phis[id] && OperandOk(f, f.blocks[s].phis[id][b], b, |f.blocks[b].insts|)
  }

  ghost predicate BlockOk(f: Func, b: nat)
    requires f.Valid() && b < |f.blocks|
  {
    && (forall k :: 0 <= k < |f.blocks[b].insts| ==> InstOk(f, b, k))
    && (forall i :: 0 <= i < |f.g.succs[b]| ==> EdgeOk(f, b, f.g.succs[b][i]))
  }

  ghost predicate DefsDominateUses(f: Func)
    requires f.Valid()
  {
    forall b: nat :: b < |f.blocks| && Reachable(f.g, b) ==> BlockOk(f, b)
  }

  /** Environments that agree on everything but some references. */
  ghost predicate AgreeBut(but: set<Ref>, e: Env, e': Env) {
    && (forall r :: r !in but ==> e.refs(r) == e'.refs(r))
    && (forall v: nat :: e.vregs(v) == e'.vregs(v))
    && e'.undef == e.undef
  }

  /** An instruction that reads the same values in agreeing environments leaves them agreeing. */
  lemma ExecInstAgrees(b: nat, k: nat, inst: Inst, inst': Inst, o: Oracle, but: set<Ref>, e: Env, e': Env,
                       log: seq<Event>)
    requires inst'.op == inst.op && inst'.rets == inst.rets && |inst'.args| == |inst.args|
    requires forall j :: 0 <= j < |inst.args| ==> Read(inst'.args[j], e') == Read(inst.args[j], e)
    requires AgreeBut(but, e, e')
    ensures PointsAgree(but, ExecInst(b, k, inst, o, e, log), ExecInst(b, k, inst', o, e', log))
  {
    if Ssa.Defined(inst.args, e) {
      assert Values(inst.args, e) == Values(inst'.args, e');
    }
  }

  ghost predicate PointsAgree(but: set<Ref>, p: Point, p': Point) {
    && (p.Wrong? <==> p'.Wrong?)
    && (p.Pt? ==> p'.log == p.log && p'.last == p.last && AgreeBut(but, p.e, p'.e))
  }

  // ---------------------------------------------------------------- runs of SSA programs

  /** Operands name existing results or immediates, and the entry block has no PHIs.  PHIs and
      moves may read an undefined value. */
  ghost predicate Complete(f: Func)
    requires f.Valid()
  {
    && f.blocks[0].phis == map[]
    && forall b: nat :: b < |f.blocks| && Reachable(f.g, b) ==> CompleteBlock(f, b)
  }

  ghost predicate CompleteBlock(f: Func, b: nat)
    requires b < |f.blocks|
  {
    && (forall k: nat, j: nat :: k < |f.blocks[b].insts| && j < |f.blocks[b].insts[k].args| ==>
          CompleteArg(f, f.blocks[b].insts[k].args[j]) || UndefMove(f.blocks[b].insts[k]))
    && (forall id, p: nat :: id in f.blocks[b].phis && p in f.blocks[b].phis[id] && IsPred(f.g, p, b) ==>
          CompleteArg(f, f.blocks[b].phis[id][p]) || f.blocks[b].phis[id][p] == Undef)
  }

  ghost predicate IsPred(g: Graph, p: nat, b: nat) {
    Reachable(g, p) && Edge(g, p, b)
  }

  /** Stands for an instruction whose result is undefined. */
  predicate UndefMove(inst: Inst) {
    inst.op.Mov? && inst.args == [Undef]
  }

  predicate CompleteArg(f: Func, a: Operand) {
    match a
    case Imm(_) => true
    case Use(r) => IsResult(f, r)
    case VReg(_) => false
    case Undef => false
  }

  predicate IsResult(f: Func, r: Ref) {
    Exists(f, InstOf(r)) && (r.Res? ==> r.i < |f.blocks[r.b].insts[r.k].rets|)
  }

  /** Every definition that dominates the point before instruction k of b has a value. */
  ghost predicate AllSet(f: Func, b: nat, k: nat, e: Env) {
    forall r: Ref :: IsResult(f, r) && Available(f, r, b, k) ==> e.refs(r).Some?
  }

  lemma OperandsSet(f: Func, b: nat, k: nat, e: Env)
    requires f.Valid() && DefsDominateUses(f) && Complete(f)
    requires b < |f.blocks| && Reachable(f.g, b) && k < |f.blocks[b].insts| && AllSet(f, b, k, e)
    ensures Ssa.Defined(f.blocks[b].insts[k].args, e)
  {
    var args := f.blocks[b].insts[k].args;
    forall j | 0 <= j < |args|
      ensures Read(args[j], e).Some?
    {
      assert BlockOk(f, b) && InstOk(f, b, k) && CompleteBlock(f, b);
      assert OperandOk(f, args[j], b, k) && (CompleteArg(f, args[j]) || UndefMove(f.blocks[b].insts[k]));
    }
  }

  lemma {:induction false} BlockNeverStuck(f: Func, o: Oracle, b: nat, k: nat, e: Env, log: seq<Event>)
    requires f.Valid() && DefsDominateUses(f) && Complete(f)
    requires b < |f.blocks| && Reachable(f.g, b) && k <= |f.blocks[b].insts| && AllSet(f, b, 0, e)
    ensures Exec(f, o, b, k, e, log).Pt? && AllSet(f, b, k, Exec(f, o, b, k, e, log).e)
  {
    hide DefsDominateUses, Complete, AllSet, Ssa.Defined, Write;
    if k > 0 {
      BlockNeverStuck(f, o, b, k - 1, e, log);
      var p := Exec(f, o, b, k - 1, e, log);
      OperandsSet(f, b, k - 1, p.e);
      var inst := f.blocks[b].insts[k - 1];
      var vals := Values(inst.args, p.e);
      var log' := if Pure(inst.op) then p.log else p.log + [Event(b, k - 1, inst.op, vals)];
      WriteKeepsAllSet(f, b, k - 1, p.e, vals, o, log');
    }
  }

  lemma WriteKeepsAllSet(f: Func, b: nat, k: nat, e: Env, vals: seq<Val>, o: Oracle, log: seq<Event>)
    requires b < |f.blocks| && k < |f.blocks[b].insts| && AllSet(f, b, k, e)
    ensures AllSet(f, b, k + 1, Write(e, b, k, f.blocks[b].insts[k], vals, o, log))
  {
    var e' := Write(e, b, k, f.blocks[b].insts[k], vals, o, log);
    forall r: Ref | IsResult(f, r) && Available(f, r, b, k + 1)
      ensures e'.refs(r).Some?
    {
      if !(r.Res? && r.b == b && r.k == k) {
        assert Available(f, r, b, k);
      }
    }
  }

  /** The dominators of a block, other than itself, dominate its predecessors. */
  lemma DomBeforeEdge(g: Graph, a: nat, b: nat, c: nat)
    requires g.Valid() && Edge(g, b, c) && c < |g.succs| && SDom(g, a, c)
    ensures Dom(g, a, b)
  {
    forall p | RunTo(g, p, b)
      ensures a in p
    {
      ConcatPath(g, p, [c]);
      assert RunTo(g, p + [c], c);
      assert a in p + [c];
    }
  }

  /** A PHI takes a value on every edge. */
  lemma PhiGetsValue(f: Func, b: nat, c: nat, e: Env, r: Ref)
    requires f.Valid() && DefsDominateUses(f) && Complete(f)
    requires b < |f.blocks| && c < |f.blocks| && Reachable(f.g, b) && Edge(f.g, b, c)
    requires AllSet(f, b, |f.blocks[b].insts|, e)
    requires r.Phi? && r.b == c && r.id in f.blocks[c].phis
    ensures EnterPhis(f.blocks[c].phis, b, c, e).refs(r).Some?
  {
    var i :| 0 <= i < |f.g.succs[b]| && f.g.succs[b][i] == c;
    assert BlockOk(f, b) && EdgeOk(f, b, f.g.succs[b][i]) && PhiOk(f, b, c, r.id);
    var a := f.blocks[c].phis[r.id][b];
    EdgeReachable(f.g, b, c);
    assert CompleteBlock(f, c) && OperandOk(f, a, b, |f.blocks[b].insts|);
    assert IsPred(f.g, b, c);
    assert CompleteArg(f, a) || a == Undef;
    if a.Use? {
      assert Available(f, a.r, b, |f.blocks[b].insts|);
    }
  }

  lemma EdgeKeepsAllSet(f: Func, b: nat, c: nat, e: Env)
    requires f.Valid() && DefsDominateUses(f) && Complete(f)
    requires b < |f.blocks| && c < |f.blocks| && Reachable(f.g, b) && Edge(f.g, b, c)
    requires AllSet(f, b, |f.blocks[b].insts|, e)
    ensures AllSet(f, c, 0, EnterPhis(f.blocks[c].phis, b, c, e))
  {
    var e' := EnterPhis(f.blocks[c].phis, b, c, e);
    forall r: Ref | IsResult(f, r) && Available(f, r, c, 0)
      ensures e'.refs(r).Some?
    {
      hide DefsDominateUses, Complete;
      if r.b == c {
        PhiGetsValue(f, b, c, e, r);
      } else {
        DomBeforeEdge(f.g, r.b, b, c);
        assert Available(f, r, b, |f.blocks[b].insts|);
      }
    }
  }

  /** In a program whose definitions dominate their uses no run ever reads a definition that
      has not been executed: while a run goes on, its next block executes to the end. */
  lemma {:induction false} NeverReadsUndefined(f: Func, o: Oracle, n: nat)
    requires f.Valid() && DefsDominateUses(f) && Complete(f)
    ensures var s := Steps(f, o, n);
      s.At? ==> s.b < |f.blocks| && Reachable(f.g, s.b) && AllSet(f, s.b, 0, s.e) && AtEnd(f, o, s).Pt?
  {
    hide DefsDominateUses, Complete, AllSet;
    if n == 0 {
      EntryReachable(f.g);
      EntrySet(f, o);
    } else if Steps(f, o, n).At? {
      NeverReadsUndefined(f, o, n - 1);
      StepTaken(f, o, n - 1);
      var s, t := Steps(f, o, n - 1), Steps(f, o, n);
      EdgeReachable(f.g, s.b, t.b);
      BlockNeverStuck(f, o, s.b, |f.blocks[s.b].insts|, s.e, s.log);
      EdgeKeepsAllSet(f, s.b, t.b, AtEnd(f, o, s).e);
    }
    var t := Steps(f, o, n);
    if t.At? {
      BlockNeverStuck(f, o, t.b, |f.blocks[t.b].insts|, t.e, t.log);
    }
  }

  lemma EntrySet(f: Func, o: Oracle)
    requires f.Valid() && Complete(f)
    ensures AllSet(f, 0, 0, Steps(f, o, 0).e)
  {
    forall r: Ref
      ensures !(IsResult(f, r) && Available(f, r, 0, 0))
    {
      if IsResult(f, r) && Dom(f.g, r.b, 0) {
        OnlyEntryDominatesEntry(f.g, r.b);
      }
    }
  }
}
