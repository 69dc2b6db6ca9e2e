/** The machine with memory is simulated by the plain machine whose cells are registers
    (passes/mem_to_reg.cpp). */
module CellSimulation {
  import opened Cfg
  import opened DeadPhis
  import opened Options
  import opened Ssa
  import opened SsaForm
  import opened Words
  import opened Arith
  import opened CellFind
  import opened CellBytes
  import opened CellMemory

  // ---------------------------------------------------------------- cells as registers

  /** The register that stands for the cell at an offset. */
  function CellOf(base: nat, off: int): nat {
    if off < 0 then base else base + off
  }

  /** An access to the object as a move to or from the register of its cell. */
  function ViewInst(uses: map<User, (int, nat)>, base: nat, b: nat, k: nat, inst: Inst): Inst {
    var u := ByInst(b, k);
    if u !in uses then inst
    else if inst.op.Store? && |inst.args| == 2 then
      Inst(Op.Mov(false), [inst.args[1]], [CellOf(base, uses[u].0)])
    else Inst(Op.Mov(false), [VReg(CellOf(base, uses[u].0))], inst.rets)
  }

  function ViewBlock(f: Func, uses: map<User, (int, nat)>, base: nat, b: nat): Block
    requires b < |f.blocks|
  {
    var insts := f.blocks[b].insts;
    Block(f.blocks[b].phis, seq(|insts|, k requires 0 <= k < |insts| => ViewInst(uses, base, b, k, insts[k])))
  }

  /** The function with registers for the cells of the object. */
  function ViewFunc(f: Func, uses: map<User, (int, nat)>, base: nat): Func {
    f.(blocks := seq(|f.blocks|, b requires 0 <= b < |f.blocks| => ViewBlock(f, uses, base, b)))
  }

  lemma ViewShape(f: Func, uses: map<User, (int, nat)>, base: nat)
    ensures var g := ViewFunc(f, uses, base);
      && g.g == f.g && |g.blocks| == |f.blocks| && (f.Valid() ==> g.Valid())
      && forall b: nat :: b < |f.blocks| ==>
           g.blocks[b].phis == f.blocks[b].phis && |g.blocks[b].insts| == |f.blocks[b].insts|
  {
  }

  lemma ViewAt(f: Func, uses: map<User, (int, nat)>, base: nat, b: nat, k: nat)
    requires b < |f.blocks| && k < |f.blocks[b].insts|
    ensures var g := ViewFunc(f, uses, base);
      && b < |g.blocks| && k < |g.blocks[b].insts|
      && g.blocks[b].insts[k] == ViewInst(uses, base, b, k, f.blocks[b].insts[k])
  {
  }

  // ---------------------------------------------------------------- what both machines agree on

  ghost predicate IsAddress(s: Split, r: Ref) {
    exists off: int :: Derived(s.f, s.obj, r, off)
  }

  /** The object has not leaked, and only its addresses are marked. */
  ghost predicate MarksOk(s: Split, m: Mem) {
    !m.leaked && forall r :: m.marks(r) ==> IsAddress(s, r)
  }

  /** Every derived address that has been computed is where its offset says. */
  ghost predicate Placed(f: Func, obj: Object, w: World, e: Env) {
    forall r, off: int :: Derived(f, obj, r, off) && e.refs(r).Some? ==> e.refs(r).value == Word(w.m, w.a + off)
  }

  /** And marked. */
  ghost predicate AddressesOk(s: Split, w: World, e: Env, m: Mem) {
    && Placed(s.f, s.obj, w, e)
    && forall r, off: int :: Derived(s.f, s.obj, r, off) && e.refs(r).Some? ==> m.marks(r)
  }

  ghost predicate ConstantsOk(f: Func, e: Env) {
    forall r :: ConstantOf(f, Use(r)).Some? && e.refs(r).Some? ==> e.refs(r) == ConstantOf(f, Use(r))
  }

  ghost predicate Tracked(s: Split, w: World, e: Env, m: Mem) {
    MarksOk(s, m) && AddressesOk(s, w, e, m) && ConstantsOk(s.f, e)
  }

  /** The value of the bytes at an offset of the object, if all of them have been stored. */
  function Content(w: World, bytes: map<int, int>, off: int, ty: nat): Option<Val> {
    match LoadBytes(bytes, w.a + off, w.size(ty))
    case Some(v) => Some(w.decode(ty, v))
    case None => None
  }

  /** Registers hold what the bytes of their cells stand for. */
  ghost predicate CellsOk(s: Split, w: World, m: Mem, e': Env) {
    forall u :: u in s.uses ==> e'.vregs(CellOf(s.base, s.uses[u].0)) == Content(w, m.bytes, s.uses[u].0, s.uses[u].1)
  }

  /** The result that a store has once it is a move. */
  predicate StoreResult(s: Split, r: Ref) {
    r.Res? && DefOf(r) in s.uses && InFunc(s.f, DefOf(r)) && UserInst(s.f, DefOf(r)).op.Store?
  }

  ghost predicate RefsOk(s: Split, e: Env, e': Env) {
    e'.undef == e.undef && forall r :: !StoreResult(s, r) ==> e'.refs(r) == e.refs(r)
  }

  /** The bytes are those that the accesses so far have left. */
  ghost predicate HistoryOk(s: Split, w: World, m: Mem) {
    m.bytes == After(s.uses, w.a, m.accesses, map[]) && AreUses(s.size, s.uses, m.accesses)
  }

  ghost predicate Related(s: Split, w: World, e: Env, m: Mem, e': Env) {
    Tracked(s, w, e, m) && CellsOk(s, w, m, e') && RefsOk(s, e, e') && HistoryOk(s, w, m)
  }

  /** What is fixed in a simulation. */
  datatype Sim = Sim(s: Split, w: World, o: Oracle)
  {
    ghost predicate Ok() {
      s.Ok() && Fits(s, w) && Computes(s.f, s.obj, w, o)
    }

    function Before(): Machine {
      Machine(s.f, s.obj, w, o)
    }

    function View(): Func {
      ViewFunc(s.f, s.uses, s.base)
    }
  }

  // ---------------------------------------------------------------- operands

  lemma SplitInst(s: Split, b: nat, k: nat)
    requires s.Ok() && InFunc(s.f, ByInst(b, k))
    ensures SsaInst(s.f, b, k)
  {
    hide SsaInst, FreshFrom, Escapes, AllUses, AreCells, DefsDominateUses;
  }

  /** Operands name results of instructions that have some, so no result of a store. */
  lemma SameOperand(s: Split, a: Operand, e: Env, e': Env)
    requires s.Ok() && SsaOperand(s.f, a) && RefsOk(s, e, e')
    ensures Read(a, e') == Read(a, e)
  {
    hide FreshFrom, Escapes, AllUses, AreCells, DefsDominateUses;
    if a.Use? && StoreResult(s, a.r) {
      SplitInst(s, a.r.b, a.r.k);
      assert false;
    }
  }

  lemma SameOperands(s: Split, b: nat, k: nat, e: Env, e': Env)
    requires s.Ok() && InFunc(s.f, ByInst(b, k)) && RefsOk(s, e, e')
    ensures forall j :: 0 <= j < |s.f.blocks[b].insts[k].args| ==>
      Read(s.f.blocks[b].insts[k].args[j], e') == Read(s.f.blocks[b].insts[k].args[j], e)
  {
    hide Split.Ok, RefsOk, Shaped, SsaOperand;
    SplitInst(s, b, k);
    forall j | 0 <= j < |s.f.blocks[b].insts[k].args|
      ensures Read(s.f.blocks[b].insts[k].args[j], e') == Read(s.f.blocks[b].insts[k].args[j], e)
    {
      SameOperand(s, s.f.blocks[b].insts[k].args[j], e, e');
    }
  }

  lemma FreshResults(s: Split, b: nat, k: nat, off: int)
    requires s.Ok() && InFunc(s.f, ByInst(b, k))
    ensures CellOf(s.base, off) !in s.f.blocks[b].insts[k].rets
  {
    hide WellFormed, Escapes, AllUses, AreCells;
    assert UserInst(s.f, ByInst(b, k)) == s.f.blocks[b].insts[k];
  }

  /** Writing results that are no cells leaves the cells. */
  lemma WriteKeepsCells(s: Split, w: World, m: Mem, b: nat, k: nat, inst: Inst, vals: seq<Val>, o: Oracle,
                        log: seq<Event>, e': Env)
    requires s.Ok() && InFunc(s.f, ByInst(b, k)) && inst.rets == s.f.blocks[b].insts[k].rets && CellsOk(s, w, m, e')
    ensures CellsOk(s, w, m, Write(e', b, k, inst, vals, o, log))
  {
    hide Split.Ok, Content;
    forall u | u in s.uses
      ensures CellOf(s.base, s.uses[u].0) !in inst.rets
    {
      FreshResults(s, b, k, s.uses[u].0);
    }
  }

  // ---------------------------------------------------------------- addresses

  lemma UseOffset(s: Split, u: User)
    requires s.Ok() && u in s.uses
    ensures s.uses[u].0 >= 0
  {
    hide WellFormed, FreshFrom, Escapes, AllUses;
  }

  /** An address inside the object is not wrapped around. */
  lemma InPlace(w: World, off: nat, ty: nat)
    requires w.a + w.len <= Pow2(w.m) && off < Pow2(w.m) && InObject(w, Word(w.m, w.a + off), ty)
    ensures Word(w.m, w.a + off) == w.a + off
  {
    hide Pow2;
    var p := Pow2(w.m);
    if w.a + off < p {
      ModUnique(p, 0, w.a + off, w.a + off);
    } else {
      ModUnique(p, 1, w.a + off - p, w.a + off);
      assert false;
    }
  }

  /** The address that an access through a marked operand uses. */
  lemma AccessAddress(x: Sim, b: nat, k: nat, e: Env, m: Mem, y: Ref, ty: nat)
    requires x.Ok() && Tracked(x.s, x.w, e, m) && InFunc(x.s.f, ByInst(b, k))
    requires Accesses(x.s.f, ByInst(b, k), y) && ByInst(b, k) in Users(x.s.f, y) && m.marks(y)
    requires e.refs(y).Some? && InObject(x.w, e.refs(y).value, ty)
    ensures ByInst(b, k) in x.s.uses && x.s.uses[ByInst(b, k)].1 == TypeOf(x.s.f, ByInst(b, k))
    ensures e.refs(y).value == x.w.a + x.s.uses[ByInst(b, k)].0
  {
    hide Split.Ok, Computes, Users, Accesses, TypeOf, Derived, Word, Pow2, InObject, ConstantsOk;
    assert IsAddress(x.s, y);
    var off: int :| Derived(x.s.f, x.s.obj, y, off);
    AccessIsUse(x.s, y, off, ByInst(b, k));
    UseOffset(x.s, ByInst(b, k));
    InPlace(x.w, off, ty);
  }

  /** The results of loads and stores are no addresses of the object, and no constants. */
  lemma NotAddress(f: Func, obj: Object, b: nat, k: nat, i: nat, off: int)
    requires InFunc(f, ByInst(b, k)) && (f.blocks[b].insts[k].op.Load? || f.blocks[b].insts[k].op.Store?)
    ensures !Derived(f, obj, Res(b, k, i), off) && ConstantOf(f, Use(Res(b, k, i))).None?
  {
    hide Derived, Users;
    var x := Res(b, k, i);
    assert DefOf(x) == ByInst(b, k);
    assert forall y, o: int :: !StepsFrom(f, obj, y, x, o, off);
    if Derived(f, obj, x, off) {
      DerivedBefore(f, obj, x, off);
      assert false;
    }
  }

  // ---------------------------------------------------------------- loads of the object

  lemma LoadTracked(s: Split, w: World, o: Oracle, b: nat, k: nat, v: Val, e: Env, log: seq<Event>, m: Mem, inst: Inst,
                    more: seq<Access>)
    requires InFunc(s.f, ByInst(b, k)) && s.f.blocks[b].insts[k].op.Load? && Tracked(s, w, e, m)
    ensures Tracked(s, w, Write(e, b, k, inst, [v], o, log),
      m.(marks := MarkResults(m.marks, b, k, |inst.rets|, false), accesses := more))
  {
    hide Derived, ConstantOf, Word;
    var e1 := Write(e, b, k, inst, [v], o, log);
    var m1 := m.(marks := MarkResults(m.marks, b, k, |inst.rets|, false), accesses := more);
    forall r, off: int | Derived(s.f, s.obj, r, off) && e1.refs(r).Some?
      ensures m1.marks(r) && e1.refs(r).value == Word(w.m, w.a + off)
    {
      if r.Res? && r.b == b && r.k == k {
        NotAddress(s.f, s.obj, b, k, r.i, off);
        assert false;
      }
    }
    forall r | ConstantOf(s.f, Use(r)).Some? && e1.refs(r).Some?
      ensures e1.refs(r) == ConstantOf(s.f, Use(r))
    {
      if r.Res? && r.b == b && r.k == k {
        NotAddress(s.f, s.obj, b, k, r.i, 0);
        assert false;
      }
    }
  }

  lemma LoadSim(x: Sim, b: nat, k: nat, e: Env, e': Env, log: seq<Event>, m: Mem)
    requires x.Ok() && InFunc(x.s.f, ByInst(b, k)) && Related(x.s, x.w, e, m, e')
    requires ObjectLoad(x.s.f.blocks[b].insts[k], m) && Ssa.Defined(x.s.f.blocks[b].insts[k].args, e)
    requires ExecMem(x.Before(), b, k, e, log, m).p.Pt?
    ensures ByInst(b, k) in x.s.uses
    ensures var r := ExecMem(x.Before(), b, k, e, log, m);
      var p' := ExecInst(b, k, ViewInst(x.s.uses, x.s.base, b, k, x.s.f.blocks[b].insts[k]), x.o, e', log);
      AlikePoints(r.p, p') && Related(x.s, x.w, r.p.e, r.m, p'.e)
  {
    hide Sim.Ok, ExecMem, ExecInst, ViewInst, Write, MarkResults, Tracked, CellsOk, RefsOk, HistoryOk, Accesses, Users;
    var v := LoadExec(x, b, k, e, log, m);
    var inst := x.s.f.blocks[b].insts[k];
    var moved := ViewInst(x.s.uses, x.s.base, b, k, inst);
    LoadMoves(x, b, k, m, e', log, v);
    SimParts(x);
    ViewRets(x, b, k);
    WriteKeepsCells(x.s, x.w, m, b, k, moved, [v], x.o, log, e');
    LoadRefs(x.s, b, k, inst.(op := Op.Mov(false)), moved, [v], x.o, log, e, e');
    LoadTracked(x.s, x.w, x.o, b, k, v, e, log, m, inst.(op := Op.Mov(false)), m.accesses + [Loaded(ByInst(b, k))]);
    LoadHistory(x.s, x.w, m, ByInst(b, k));
    var m1 := ExecMem(x.Before(), b, k, e, log, m).m;
    SameHistory(x.s, x.w, m1);
    SameCells(x.s, x.w, m1, m, Write(e', b, k, moved, [v], x.o, log));
  }

  /** What a load of the object reads. */
  lemma LoadExec(x: Sim, b: nat, k: nat, e: Env, log: seq<Event>, m: Mem) returns (v: Val)
    requires x.Ok() && InFunc(x.s.f, ByInst(b, k)) && Tracked(x.s, x.w, e, m)
    requires ObjectLoad(x.s.f.blocks[b].insts[k], m) && Ssa.Defined(x.s.f.blocks[b].insts[k].args, e)
    requires ExecMem(x.Before(), b, k, e, log, m).p.Pt?
    ensures ByInst(b, k) in x.s.uses
    ensures Content(x.w, m.bytes, x.s.uses[ByInst(b, k)].0, x.s.uses[ByInst(b, k)].1) == Some(v)
    ensures var inst := x.s.f.blocks[b].insts[k];
      ExecMem(x.Before(), b, k, e, log, m) == MemPoint(
        Pt(Write(e, b, k, inst.(op := Op.Mov(false)), [v], x.o, log), log, [v]),
        m.(marks := MarkResults(m.marks, b, k, |inst.rets|, false), accesses := m.accesses + [Loaded(ByInst(b, k))]))
  {
    hide Sim.Ok, Users, LoadBytes, Word, AddressesOk, ConstantsOk, MarksOk, Computes, Split.Ok, Write, MarkResults;
    var f, inst := x.s.f, x.s.f.blocks[b].insts[k];
    var y, ty := inst.args[0].r, inst.op.ty;
    IsOperand(f, b, k, 0, y);
    assert inst.args == [Use(y)];
    AccessAddress(x, b, k, e, m, y, ty);
    v := x.w.decode(ty, LoadBytes(m.bytes, x.w.a + x.s.uses[ByInst(b, k)].0, x.w.size(ty)).value);
  }

  /** What the move from the register of the cell does. */
  lemma LoadMoves(x: Sim, b: nat, k: nat, m: Mem, e': Env, log: seq<Event>, v: Val)
    requires InFunc(x.s.f, ByInst(b, k)) && ByInst(b, k) in x.s.uses && CellsOk(x.s, x.w, m, e')
    requires x.s.f.blocks[b].insts[k].op.Load?
    requires Content(x.w, m.bytes, x.s.uses[ByInst(b, k)].0, x.s.uses[ByInst(b, k)].1) == Some(v)
    ensures var moved := ViewInst(x.s.uses, x.s.base, b, k, x.s.f.blocks[b].insts[k]);
      ExecInst(b, k, moved, x.o, e', log) == Pt(Write(e', b, k, moved, [v], x.o, log), log, [v])
  {
    hide CellOf, Content, Write;
    var moved := ViewInst(x.s.uses, x.s.base, b, k, x.s.f.blocks[b].insts[k]);
    assert Values(moved.args, e') == [v];
  }

  lemma ViewRets(x: Sim, b: nat, k: nat)
    requires InFunc(x.s.f, ByInst(b, k)) && x.s.f.blocks[b].insts[k].op.Load? && ByInst(b, k) in x.s.uses
    ensures var moved := ViewInst(x.s.uses, x.s.base, b, k, x.s.f.blocks[b].insts[k]);
      moved.op == Op.Mov(false) && moved.rets == x.s.f.blocks[b].insts[k].rets
  {
  }

  /** The same results are written on both sides. */
  lemma LoadRefs(s: Split, b: nat, k: nat, inst: Inst, inst': Inst, vals: seq<Val>, o: Oracle, log: seq<Event>, e: Env,
                 e': Env)
    requires inst'.op == inst.op && inst'.rets == inst.rets && RefsOk(s, e, e')
    ensures RefsOk(s, Write(e, b, k, inst, vals, o, log), Write(e', b, k, inst', vals, o, log))
  {
    hide StoreResult;
  }

  lemma LoadHistory(s: Split, w: World, m: Mem, u: User)
    requires HistoryOk(s, w, m) && u in s.uses
    ensures m.bytes == After(s.uses, w.a, m.accesses + [Loaded(u)], map[])
    ensures AreUses(s.size, s.uses, m.accesses + [Loaded(u)])
  {
    var h := m.accesses + [Loaded(u)];
    assert h[..|h| - 1] == m.accesses;
  }

  lemma SimParts(x: Sim)
    requires x.Ok()
    ensures x.s.Ok() && Fits(x.s, x.w) && Computes(x.s.f, x.s.obj, x.w, x.o)
  {
  }

  // ---------------------------------------------------------------- stores to the object

  /** The value stored is no address of the object. */
  lemma StoresNoAddress(s: Split, b: nat, k: nat, m: Mem)
    requires s.Ok() && InFunc(s.f, ByInst(b, k)) && MarksOk(s, m)
    requires s.f.blocks[b].insts[k].op.Store? && |s.f.blocks[b].insts[k].args| == 2
    ensures !Marked(s.f.blocks[b].insts[k].args[1], m)
  {
    hide Split.Ok, Users, Derived;
    var a := s.f.blocks[b].insts[k].args[1];
    if Marked(a, m) {
      assert IsAddress(s, a.r);
      var off: int :| Derived(s.f, s.obj, a.r, off);
      IsOperand(s.f, b, k, 1, a.r);
      NoEscape(s, a.r, off, ByInst(b, k));
      assert false;
    }
  }

  lemma StoreCells(x: Sim, u: User, m: Mem, v: Val, e': Env, e1: Env)
    requires x.Ok() && u in x.s.uses && CellsOk(x.s, x.w, m, e')
    requires x.w.decode(x.s.uses[u].1, x.w.encode(x.s.uses[u].1, v)) == v
    requires e1.vregs(CellOf(x.s.base, x.s.uses[u].0)) == Some(v)
    requires forall c: nat :: c != CellOf(x.s.base, x.s.uses[u].0) ==> e1.vregs(c) == e'.vregs(c)
    ensures CellsOk(x.s, x.w,
      m.(bytes := StoreBytes(m.bytes, x.w.a + x.s.uses[u].0, x.w.encode(x.s.uses[u].1, v))), e1)
  {
    hide Sim.Ok, Split.Ok, LoadBytes, StoreBytes;
    SimParts(x);
    hide Computes, Fits;
    FitsParts(x.s, x.w);
    var off, ty := x.s.uses[u].0, x.s.uses[u].1;
    var bytes := StoreBytes(m.bytes, x.w.a + off, x.w.encode(ty, v));
    UseOffset(x.s, u);
    SplitCells(x.s);
    forall l | l in x.s.uses
      ensures e1.vregs(CellOf(x.s.base, x.s.uses[l].0)) == Content(x.w, bytes, x.s.uses[l].0, x.s.uses[l].1)
    {
      UseOffset(x.s, l);
      CellsAreRegisters(x.s.size, x.s.uses, u, l, m.bytes, x.w.a, x.w.encode(ty, v));
    }
  }

  lemma FitsParts(s: Split, w: World)
    requires Fits(s, w)
    ensures w.size == s.size && forall ty: nat, v: Val :: |w.encode(ty, v)| == w.size(ty)
  {
  }

  lemma SplitCells(s: Split)
    requires s.Ok()
    ensures AreCells(s.size, s.uses)
    ensures forall u, v :: u in s.uses && v in s.uses && s.uses[u].0 == s.uses[v].0 ==> s.uses[u].1 == s.uses[v].1
  {
    hide WellFormed, FreshFrom, Escapes, AllUses;
  }

  lemma StoreSim(x: Sim, b: nat, k: nat, e: Env, e': Env, log: seq<Event>, m: Mem)
    requires x.Ok() && InFunc(x.s.f, ByInst(b, k)) && Related(x.s, x.w, e, m, e')
    requires ObjectStore(x.s.f.blocks[b].insts[k], m) && Ssa.Defined(x.s.f.blocks[b].insts[k].args, e)
    requires ExecMem(x.Before(), b, k, e, log, m).p.Pt?
    ensures ByInst(b, k) in x.s.uses
    ensures var r := ExecMem(x.Before(), b, k, e, log, m);
      var p' := ExecInst(b, k, ViewInst(x.s.uses, x.s.base, b, k, x.s.f.blocks[b].insts[k]), x.o, e', log);
      AlikePoints(r.p, p') && Related(x.s, x.w, r.p.e, r.m, p'.e)
  {
    hide Sim.Ok, ExecMem, ExecInst, ViewInst, Write, Tracked, CellsOk, RefsOk, HistoryOk, StoreBytes, Accesses, Users;
    var u := ByInst(b, k);
    var v := StoreExec(x, b, k, e, log, m);
    var m1 := ExecMem(x.Before(), b, k, e, log, m).m;
    var e1 := StoreMoves(x, b, k, e, e', log, v);
    StoreCells(x, u, m, v, e', e1);
    StoreHistory(x, m, u, x.w.encode(x.s.uses[u].1, v));
    SameMarks(x.s, x.w, e, m, m1);
    SameCells(x.s, x.w, m1, m.(bytes := m1.bytes), e1);
    SameHistory(x.s, x.w, m1);
  }

  lemma SameHistory(s: Split, w: World, m: Mem)
    requires m.bytes == After(s.uses, w.a, m.accesses, map[]) && AreUses(s.size, s.uses, m.accesses)
    ensures HistoryOk(s, w, m)
  {
  }

  /** What a store to the object does to its bytes. */
  lemma StoreExec(x: Sim, b: nat, k: nat, e: Env, log: seq<Event>, m: Mem) returns (v: Val)
    requires x.Ok() && InFunc(x.s.f, ByInst(b, k)) && Tracked(x.s, x.w, e, m)
    requires ObjectStore(x.s.f.blocks[b].insts[k], m) && Ssa.Defined(x.s.f.blocks[b].insts[k].args, e)
    requires ExecMem(x.Before(), b, k, e, log, m).p.Pt?
    ensures ByInst(b, k) in x.s.uses && v == Values(x.s.f.blocks[b].insts[k].args, e)[1]
    ensures var off, ty := x.s.uses[ByInst(b, k)].0, x.s.uses[ByInst(b, k)].1;
      var bytes := x.w.encode(ty, v);
      && x.w.decode(ty, bytes) == v && |bytes| == x.s.size(ty)
      && ExecMem(x.Before(), b, k, e, log, m) == MemPoint(Pt(e, log, [v]),
           m.(bytes := StoreBytes(m.bytes, x.w.a + off, bytes), accesses := m.accesses + [Stored(ByInst(b, k), bytes)]))
  {
    hide Sim.Ok, Users, LoadBytes, StoreBytes, Word, AddressesOk, ConstantsOk, Computes, Split.Ok;
    var f, inst, u := x.s.f, x.s.f.blocks[b].insts[k], ByInst(b, k);
    SimParts(x);
    FitsParts(x.s, x.w);
    IsOperand(f, b, k, 0, inst.args[0].r);
    StoresNoAddress(x.s, b, k, m);
    AccessAddress(x, b, k, e, m, inst.args[0].r, inst.op.ty);
    v := Values(inst.args, e)[1];
  }

  /** What the move to the register of the cell does. */
  lemma StoreMoves(x: Sim, b: nat, k: nat, e: Env, e': Env, log: seq<Event>, v: Val) returns (e1: Env)
    requires x.Ok() && InFunc(x.s.f, ByInst(b, k)) && ByInst(b, k) in x.s.uses && RefsOk(x.s, e, e')
    requires x.s.f.blocks[b].insts[k].op.Store? && |x.s.f.blocks[b].insts[k].args| == 2
    requires Ssa.Defined(x.s.f.blocks[b].insts[k].args, e) && v == Values(x.s.f.blocks[b].insts[k].args, e)[1]
    ensures ExecInst(b, k, ViewInst(x.s.uses, x.s.base, b, k, x.s.f.blocks[b].insts[k]), x.o, e', log) ==
      Pt(e1, log, [v])
    ensures RefsOk(x.s, e, e1) && e1.vregs(CellOf(x.s.base, x.s.uses[ByInst(b, k)].0)) == Some(v)
    ensures forall c: nat :: c != CellOf(x.s.base, x.s.uses[ByInst(b, k)].0) ==> e1.vregs(c) == e'.vregs(c)
  {
    hide Sim.Ok, CellOf, StoreResult, RefsOk;
    SimParts(x);
    SameOperands(x.s, b, k, e, e');
    var moved := ViewInst(x.s.uses, x.s.base, b, k, x.s.f.blocks[b].insts[k]);
    assert Values(moved.args, e') == [v];
    e1 := Write(e', b, k, moved, [v], x.o, log);
    StoreRefs(x.s, b, k, e, e', e1);
  }

  lemma StoreRefs(s: Split, b: nat, k: nat, e: Env, e': Env, e1: Env)
    requires InFunc(s.f, ByInst(b, k)) && s.f.blocks[b].insts[k].op.Store? && ByInst(b, k) in s.uses && RefsOk(s, e, e')
    requires e1.undef == e'.undef && forall r: Ref :: !(r.Res? && r.b == b && r.k == k) ==> e1.refs(r) == e'.refs(r)
    ensures RefsOk(s, e, e1)
  {
  }

  lemma StoreHistory(x: Sim, m: Mem, u: User, v: seq<int>)
    requires x.Ok() && HistoryOk(x.s, x.w, m) && u in x.s.uses && |v| == x.s.size(x.s.uses[u].1)
    ensures var h := m.accesses + [Stored(u, v)];
      && StoreBytes(m.bytes, x.w.a + x.s.uses[u].0, v) == After(x.s.uses, x.w.a, h, map[])
      && AreUses(x.s.size, x.s.uses, h)
  {
    hide Sim.Ok, StoreBytes;
    var h := m.accesses + [Stored(u, v)];
    assert h[..|h| - 1] == m.accesses;
  }

  lemma SameMarks(s: Split, w: World, e: Env, m: Mem, m1: Mem)
    requires Tracked(s, w, e, m) && m1.marks == m.marks && m1.leaked == m.leaked
    ensures Tracked(s, w, e, m1)
  {
  }

  lemma SameCells(s: Split, w: World, m1: Mem, m2: Mem, e: Env)
    requires CellsOk(s, w, m2, e) && m1.bytes == m2.bytes
    ensures CellsOk(s, w, m1, e)
  {
  }

  // ---------------------------------------------------------------- other instructions

  /** No other instruction is one of the uses. */
  lemma OtherIsNoUse(s: Split, w: World, b: nat, k: nat, e: Env, m: Mem)
    requires s.Ok() && Tracked(s, w, e, m) && InFunc(s.f, ByInst(b, k)) && Ssa.Defined(s.f.blocks[b].insts[k].args, e)
    requires !ObjectLoad(s.f.blocks[b].insts[k], m) && !ObjectStore(s.f.blocks[b].insts[k], m)
    ensures ByInst(b, k) !in s.uses
  {
    hide Split.Ok, Users, Derived, MarksOk, ConstantsOk, Word;
    if ByInst(b, k) in s.uses {
      var y := UseIsAccess(s, ByInst(b, k));
      assert false;
    }
  }

  /** A marked operand of another instruction is one the pass can follow. */
  lemma MarkedStep(s: Split, b: nat, k: nat, m: Mem, j: nat) returns (o: int, off: int)
    requires s.Ok() && MarksOk(s, m) && InFunc(s.f, ByInst(b, k)) && j < |s.f.blocks[b].insts[k].args|
    requires !ObjectLoad(s.f.blocks[b].insts[k], m) && !ObjectStore(s.f.blocks[b].insts[k], m)
    requires Marked(s.f.blocks[b].insts[k].args[j], m)
    ensures StepsFrom(s.f, s.obj, s.f.blocks[b].insts[k].args[j].r, Res(b, k, 0), o, off)
    ensures Moves(s.f.blocks[b].insts[k].op)
  {
    hide Split.Ok, Users, Derived, BitOr, Pow2;
    var y := s.f.blocks[b].insts[k].args[j].r;
    assert IsAddress(s, y);
    o :| Derived(s.f, s.obj, y, o);
    IsOperand(s.f, b, k, j, y);
    NoEscape(s, y, o, ByInst(b, k));
    assert DefOf(Res(b, k, 0)) == ByInst(b, k);
    StepAnyOffset(s.f, s.obj.align, ByInst(b, k), y, o);
    off := StepTo(s.f, s.obj.align, ByInst(b, k), y, o).value;
  }

  lemma NoLeak(s: Split, b: nat, k: nat, m: Mem)
    requires s.Ok() && MarksOk(s, m) && InFunc(s.f, ByInst(b, k)) && AnyMarked(s.f.blocks[b].insts[k].args, m)
    requires !ObjectLoad(s.f.blocks[b].insts[k], m) && !ObjectStore(s.f.blocks[b].insts[k], m)
    ensures IsAddress(s, Res(b, k, 0)) && Moves(s.f.blocks[b].insts[k].op)
  {
    hide Split.Ok, Users, Derived, StepTo;
    var j :| 0 <= j < |s.f.blocks[b].insts[k].args| && Marked(s.f.blocks[b].insts[k].args[j], m);
    var o, off := MarkedStep(s, b, k, m, j);
    DerivedNext(s.f, s.obj, s.f.blocks[b].insts[k].args[j].r, Res(b, k, 0), o, off);
  }

  /** A step computes the address at the new offset. */
  lemma StepValue(f: Func, obj: Object, w: World, b: nat, k: nat, e: Env, y: Ref, o: int, off: int, v: Val)
    requires InFunc(f, ByInst(b, k)) && ConstantsOk(f, e) && Ssa.Defined(f.blocks[b].insts[k].args, e)
    requires Aligned(obj, w)
    requires Use(y) in f.blocks[b].insts[k].args && e.refs(y) == Some(Word(w.m, w.a + o))
    requires StepTo(f, obj.align, ByInst(b, k), y, o) == Some(off)
    requires ComputesAt(f.blocks[b].insts[k].op, w, Values(f.blocks[b].insts[k].args, e), v)
    requires f.blocks[b].insts[k].op.Mov? ==> v == Values(f.blocks[b].insts[k].args, e)[0]
    ensures v == Word(w.m, w.a + off)
  {
    hide Pow2, Word, BitOr, ConstantOf;
    var inst := f.blocks[b].insts[k];
    if !inst.op.Mov? {
      OtherValue(f, b, k, e, y);
      var c := ConstantOf(f, OtherOperand(inst, y)).value;
      match inst.op {
        case Add => WordAdd(w.m, w.a + o, c);
        case Sub => WordAdd(w.m, w.a + o, -c);
        case Or => OrEither(w.m, w.a, o, c, obj.align.value);
      }
    }
  }

  /** The constant operand of a step holds its constant. */
  lemma OtherValue(f: Func, b: nat, k: nat, e: Env, y: Ref)
    requires InFunc(f, ByInst(b, k)) && ConstantsOk(f, e) && Ssa.Defined(f.blocks[b].insts[k].args, e)
    requires |f.blocks[b].insts[k].args| == 2 && Use(y) in f.blocks[b].insts[k].args
    ensures var inst := f.blocks[b].insts[k]; var z := OtherOperand(inst, y); var vals := Values(inst.args, e);
      && (ConstantOf(f, z).Some? ==>
            (if inst.args[1] == Use(y) then vals[0] else vals[1]) == ConstantOf(f, z).value)
      && Some(if inst.args[1] == Use(y) then vals[1] else vals[0]) == e.refs(y)
  {
    var inst := f.blocks[b].insts[k];
    var z := OtherOperand(inst, y);
    assert Read(inst.args[0], e).Some? && Read(inst.args[1], e).Some?;
    if ConstantOf(f, z).Some? {
      assert z == Use(z.r);
    }
  }

  lemma DerivedShape(f: Func, obj: Object, x: Ref, off: int)
    requires Derived(f, obj, x, off)
    ensures x.Res? && x.i == 0
  {
    hide Derived, Users, StepTo;
    DerivedBefore(f, obj, x, off);
  }

  /** A marked result is an address of the object. */
  lemma MarksAfter(s: Split, b: nat, k: nat, i: nat, m: Mem)
    requires s.Ok() && MarksOk(s, m) && InFunc(s.f, ByInst(b, k)) && i < |s.f.blocks[b].insts[k].rets|
    requires !ObjectLoad(s.f.blocks[b].insts[k], m) && !ObjectStore(s.f.blocks[b].insts[k], m)
    requires var inst := s.f.blocks[b].insts[k];
      AnyMarked(inst.args, m) || (inst.op.Frame? && inst.op.slot == s.obj.index)
    ensures IsAddress(s, Res(b, k, i))
  {
    hide Split.Ok, AnyMarked, Derived, MarksOk;
    SplitInst(s, b, k);
    if AnyMarked(s.f.blocks[b].insts[k].args, m) {
      NoLeak(s, b, k, m);
      assert i == 0;
    } else {
      assert DefOf(Res(b, k, 0)) == ByInst(b, k);
      FrameDerived(s.f, s.obj, Res(b, k, 0), s.f.blocks[b].insts[k].op.off);
    }
  }

  /** A result that is an address of the object is where its offset says. */
  lemma ValueAfter(f: Func, obj: Object, w: World, o: Oracle, b: nat, k: nat, e: Env, log: seq<Event>, off: int)
    requires InFunc(f, ByInst(b, k)) && Shaped(f.blocks[b].insts[k]) && Ssa.Defined(f.blocks[b].insts[k].args, e)
    requires Computes(f, obj, w, o) && Aligned(obj, w) && Placed(f, obj, w, e) && ConstantsOk(f, e)
    requires Derived(f, obj, Res(b, k, 0), off)
    ensures var inst := f.blocks[b].insts[k];
      var vals := Values(inst.args, e);
      var log' := if Pure(inst.op) then log else log + [Event(b, k, inst.op, vals)];
      Result(inst.op, vals, o, log', 0) == Word(w.m, w.a + off)
  {
    hide Derived, Users, StepTo, Word, BitOr, ConstantsOk;
    var inst, r := f.blocks[b].insts[k], Res(b, k, 0);
    var vals := Values(inst.args, e);
    assert DefOf(r) == ByInst(b, k);
    var v := Result(inst.op, vals, o, if Pure(inst.op) then log else log + [Event(b, k, inst.op, vals)], 0);
    assert ComputesAt(UserInst(f, ByInst(b, k)).op, w, vals, o.eval(log + [Event(b, k, inst.op, vals)], 0));
    DerivedBefore(f, obj, r, off);
    if !IsFrame(f, obj, r, off) {
      var y, c: int :| StepsFrom(f, obj, y, r, c, off);
      var j := OperandOf(f, b, k, y);
      assert Read(inst.args[j], e).Some?;
      StepMoves(f, obj.align, b, k, y, c);
      StepValue(f, obj, w, b, k, e, y, c, off, v);
    }
  }

  /** And it is marked. */
  lemma MarkedAfter(s: Split, w: World, b: nat, k: nat, e: Env, m: Mem, off: int)
    requires AddressesOk(s, w, e, m) && InFunc(s.f, ByInst(b, k)) && Ssa.Defined(s.f.blocks[b].insts[k].args, e)
    requires Derived(s.f, s.obj, Res(b, k, 0), off)
    ensures var inst := s.f.blocks[b].insts[k];
      AnyMarked(inst.args, m) || (inst.op.Frame? && inst.op.slot == s.obj.index)
  {
    hide Derived, Users, StepTo, Placed;
    var inst, r := s.f.blocks[b].insts[k], Res(b, k, 0);
    assert DefOf(r) == ByInst(b, k);
    DerivedBefore(s.f, s.obj, r, off);
    if !IsFrame(s.f, s.obj, r, off) {
      var y, c: int :| StepsFrom(s.f, s.obj, y, r, c, off);
      var j := OperandOf(s.f, b, k, y);
      assert Read(inst.args[j], e).Some? && Marked(inst.args[j], m);
    }
  }

  lemma StepMoves(f: Func, align: Option<nat>, b: nat, k: nat, y: Ref, o: int)
    requires InFunc(f, ByInst(b, k)) && StepTo(f, align, ByInst(b, k), y, o).Some?
    ensures Moves(f.blocks[b].insts[k].op)
  {
  }

  lemma OtherTracked(x: Sim, b: nat, k: nat, e: Env, log: seq<Event>, m: Mem)
    requires x.Ok() && Tracked(x.s, x.w, e, m) && InFunc(x.s.f, ByInst(b, k))
    requires Ssa.Defined(x.s.f.blocks[b].insts[k].args, e)
    requires !ObjectLoad(x.s.f.blocks[b].insts[k], m) && !ObjectStore(x.s.f.blocks[b].insts[k], m)
    ensures var r := ExecOther(x.Before(), b, k, x.s.f.blocks[b].insts[k], e, log, m);
      r.p.Pt? && Tracked(x.s, x.w, r.p.e, r.m) && r.m.bytes == m.bytes && r.m.accesses == m.accesses
  {
    hide Sim.Ok, Split.Ok, Derived, ConstantOf, Word, AnyMarked, IsAddress;
    SimParts(x);
    hide Fits, Computes;
    var inst := x.s.f.blocks[b].insts[k];
    var r := ExecOther(x.Before(), b, k, inst, e, log, m);
    if AnyMarked(inst.args, m) {
      NoLeak(x.s, b, k, m);
    }
    forall q | r.m.marks(q)
      ensures IsAddress(x.s, q)
    {
      if q.Res? && q.b == b && q.k == k && q.i < |inst.rets| {
        MarksAfter(x.s, b, k, q.i, m);
      }
    }
    forall q, off: int | Derived(x.s.f, x.s.obj, q, off) && r.p.e.refs(q).Some?
      ensures r.m.marks(q) && r.p.e.refs(q).value == Word(x.w.m, x.w.a + off)
    {
      DerivedShape(x.s.f, x.s.obj, q, off);
      if q.b == b && q.k == k && q.i < |inst.rets| {
        SplitInst(x.s, b, k);
        MarkedAfter(x.s, x.w, b, k, e, m, off);
        ValueAfter(x.s.f, x.s.obj, x.w, x.o, b, k, e, log, off);
      }
    }
    OtherConstants(x.s.f, b, k, e, x.o, log);
  }

  lemma OtherConstants(f: Func, b: nat, k: nat, e: Env, o: Oracle, log: seq<Event>)
    requires InFunc(f, ByInst(b, k)) && ConstantsOk(f, e) && ExecInst(b, k, f.blocks[b].insts[k], o, e, log).Pt?
    ensures ConstantsOk(f, ExecInst(b, k, f.blocks[b].insts[k], o, e, log).e)
  {
  }

  lemma OtherSim(x: Sim, b: nat, k: nat, e: Env, e': Env, log: seq<Event>, m: Mem)
    requires x.Ok() && InFunc(x.s.f, ByInst(b, k)) && Related(x.s, x.w, e, m, e')
    requires Ssa.Defined(x.s.f.blocks[b].insts[k].args, e)
    requires !ObjectLoad(x.s.f.blocks[b].insts[k], m) && !ObjectStore(x.s.f.blocks[b].insts[k], m)
    ensures ByInst(b, k) !in x.s.uses
    ensures var r := ExecMem(x.Before(), b, k, e, log, m);
      var p' := ExecInst(b, k, x.s.f.blocks[b].insts[k], x.o, e', log);
      AlikePoints(r.p, p') && Related(x.s, x.w, r.p.e, r.m, p'.e)
  {
    hide Sim.Ok, Write, Tracked, CellsOk, RefsOk, HistoryOk, ExecOther;
    SimParts(x);
    OtherIsNoUse(x.s, x.w, b, k, e, m);
    SameOperands(x.s, b, k, e, e');
    var inst := x.s.f.blocks[b].insts[k];
    var vals := Values(inst.args, e);
    assert Values(inst.args, e') == vals;
    OtherTracked(x, b, k, e, log, m);
    OtherPoint(x, b, k, inst, e, log, m);
    var log' := if Pure(inst.op) then log else log + [Event(b, k, inst.op, vals)];
    LoadRefs(x.s, b, k, inst, inst, vals, x.o, log', e, e');
    WriteKeepsCells(x.s, x.w, m, b, k, inst, vals, x.o, log', e');
    var m1 := ExecMem(x.Before(), b, k, e, log, m).m;
    SameCells(x.s, x.w, m1, m, Write(e', b, k, inst, vals, x.o, log'));
    OtherHistory(x.s, x.w, m, m1);
  }

  lemma OtherPoint(x: Sim, b: nat, k: nat, inst: Inst, e: Env, log: seq<Event>, m: Mem)
    ensures ExecOther(x.Before(), b, k, inst, e, log, m).p == ExecInst(b, k, inst, x.o, e, log)
  {
  }

  lemma OtherHistory(s: Split, w: World, m: Mem, m1: Mem)
    requires HistoryOk(s, w, m) && m1.bytes == m.bytes && m1.accesses == m.accesses
    ensures HistoryOk(s, w, m1)
  {
  }

  /** One instruction on both machines. */
  lemma InstSim(x: Sim, b: nat, k: nat, e: Env, e': Env, log: seq<Event>, m: Mem)
    requires x.Ok() && InFunc(x.s.f, ByInst(b, k)) && Related(x.s, x.w, e, m, e')
    requires ExecMem(x.Before(), b, k, e, log, m).p.Pt?
    ensures var r := ExecMem(x.Before(), b, k, e, log, m);
      var p' := ExecInst(b, k, ViewInst(x.s.uses, x.s.base, b, k, x.s.f.blocks[b].insts[k]), x.o, e', log);
      AlikePoints(r.p, p') && Related(x.s, x.w, r.p.e, r.m, p'.e)
  {
    hide Sim.Ok, Related, ExecInst, ExecOther, LoadObject, StoreObject, ObjectLoad, ObjectStore, AlikePoints;
    var inst := x.s.f.blocks[b].insts[k];
    if ObjectLoad(inst, m) {
      LoadSim(x, b, k, e, e', log, m);
    } else if ObjectStore(inst, m) {
      StoreSim(x, b, k, e, e', log, m);
    } else {
      OtherSim(x, b, k, e, e', log, m);
    }
  }

  // ---------------------------------------------------------------- blocks and edges

  lemma {:induction false} BlockSim(x: Sim, b: nat, k: nat, e: Env, e': Env, log: seq<Event>, m: Mem)
    requires x.Ok() && b < |x.s.f.blocks| && k <= |x.s.f.blocks[b].insts| && Related(x.s, x.w, e, m, e')
    requires ExecTo(x.Before(), b, k, e, log, m).p.Pt?
    ensures b < |x.View().blocks| && |x.View().blocks[b].insts| == |x.s.f.blocks[b].insts|
    ensures var r := ExecTo(x.Before(), b, k, e, log, m);
      var p' := Exec(x.View(), x.o, b, k, e', log);
      AlikePoints(r.p, p') && Related(x.s, x.w, r.p.e, r.m, p'.e)
  {
    hide Sim.Ok, Related, ExecMem, ExecInst, ViewFunc, ViewInst;
    ViewShape(x.s.f, x.s.uses, x.s.base);
    if k > 0 {
      BlockSim(x, b, k - 1, e, e', log, m);
      ViewAt(x.s.f, x.s.uses, x.s.base, b, k - 1);
      var r := ExecTo(x.Before(), b, k - 1, e, log, m);
      var p' := Exec(x.View(), x.o, b, k - 1, e', log);
      InstSim(x, b, k - 1, r.p.e, p'.e, r.p.log, r.m);
    }
  }

  lemma PhiOperandOk(s: Split, b: nat, id: nat, p: nat)
    requires s.Ok() && b < |s.f.blocks| && id in s.f.blocks[b].phis && p in s.f.blocks[b].phis[id]
    ensures SsaOperand(s.f, s.f.blocks[b].phis[id][p])
  {
    hide FreshFrom, Escapes, AllUses, AreCells, SsaInst, SsaOperand, DefsDominateUses;
  }

  /** No PHI reads an address of the object. */
  lemma PhiUnmarked(s: Split, b: nat, id: nat, p: nat, m: Mem)
    requires s.Ok() && MarksOk(s, m) && b < |s.f.blocks| && id in s.f.blocks[b].phis && p in s.f.blocks[b].phis[id]
    ensures !Marked(s.f.blocks[b].phis[id][p], m)
  {
    hide Split.Ok, Derived, Users;
    var a := s.f.blocks[b].phis[id][p];
    if Marked(a, m) {
      assert IsAddress(s, a.r);
      var off: int :| Derived(s.f, s.obj, a.r, off);
      assert Mentions(s.f.blocks[b].phis[id], a.r);
      assert IsUser(s.f, a.r, ByPhi(Phi(b, id)));
      NoEscape(s, a.r, off, ByPhi(Phi(b, id)));
      assert false;
    }
  }

  lemma EdgeSim(x: Sim, from: nat, to: nat, e: Env, e': Env, m: Mem)
    requires x.Ok() && to < |x.s.f.blocks| && Related(x.s, x.w, e, m, e')
    ensures var phis := x.s.f.blocks[to].phis;
      Related(x.s, x.w, EnterPhis(phis, from, to, e), EnterMarks(phis, from, to, m), EnterPhis(phis, from, to, e'))
  {
    hide Sim.Ok, Split.Ok, Tracked, RefsOk, CellsOk, HistoryOk, EnterPhis, EnterMarks;
    SimParts(x);
    var phis := x.s.f.blocks[to].phis;
    EdgeTracked(x, from, to, e, m);
    EdgeRefs(x.s, from, to, e, e');
    EdgeCells(x.s, x.w, from, to, e', m);
    OtherHistory(x.s, x.w, m, EnterMarks(phis, from, to, m));
  }

  lemma EdgeTracked(x: Sim, from: nat, to: nat, e: Env, m: Mem)
    requires x.Ok() && to < |x.s.f.blocks| && Tracked(x.s, x.w, e, m)
    ensures var phis := x.s.f.blocks[to].phis;
      Tracked(x.s, x.w, EnterPhis(phis, from, to, e), EnterMarks(phis, from, to, m))
    ensures EnterMarks(x.s.f.blocks[to].phis, from, to, m).bytes == m.bytes
    ensures EnterMarks(x.s.f.blocks[to].phis, from, to, m).accesses == m.accesses
  {
    hide Sim.Ok, Split.Ok, Derived, IsAddress, Word, Marked;
    SimParts(x);
    hide Fits, Computes;
    var phis := x.s.f.blocks[to].phis;
    var e1, m1 := EnterPhis(phis, from, to, e), EnterMarks(phis, from, to, m);
    forall r | m1.marks(r)
      ensures m.marks(r)
    {
      if r.Phi? && r.b == to && r.id in phis && from in phis[r.id] {
        PhiUnmarked(x.s, to, r.id, from, m);
      }
    }
    forall r, off: int | Derived(x.s.f, x.s.obj, r, off) && e1.refs(r).Some?
      ensures m1.marks(r) && e1.refs(r).value == Word(x.w.m, x.w.a + off)
    {
      DerivedShape(x.s.f, x.s.obj, r, off);
    }
  }

  lemma EdgeRefs(s: Split, from: nat, to: nat, e: Env, e': Env)
    requires s.Ok() && to < |s.f.blocks| && RefsOk(s, e, e')
    ensures var phis := s.f.blocks[to].phis; RefsOk(s, EnterPhis(phis, from, to, e), EnterPhis(phis, from, to, e'))
  {
    hide Split.Ok, StoreResult;
    var phis := s.f.blocks[to].phis;
    forall r | !StoreResult(s, r)
      ensures EnterPhis(phis, from, to, e').refs(r) == EnterPhis(phis, from, to, e).refs(r)
    {
      if r.Phi? && r.b == to && r.id in phis && from in phis[r.id] {
        PhiOperandOk(s, to, r.id, from);
        SameOperand(s, phis[r.id][from], e, e');
      }
    }
  }

  lemma EdgeCells(s: Split, w: World, from: nat, to: nat, e': Env, m: Mem)
    requires to < |s.f.blocks| && CellsOk(s, w, m, e')
    ensures var phis := s.f.blocks[to].phis; CellsOk(s, w, EnterMarks(phis, from, to, m), EnterPhis(phis, from, to, e'))
  {
    hide Content;
  }

  // ---------------------------------------------------------------- runs

  ghost predicate StatesRelated(x: Sim, t: MemState, s': State) {
    match t.s
    case At(b, e, log) =>
      b < |x.s.f.blocks| && s'.At? && s'.b == b && s'.log == log && Related(x.s, x.w, e, t.m, s'.e)
    case Halted(log) => s' == Halted(log)
    case Stuck => true
  }

  lemma SimValid(x: Sim)
    requires x.Ok()
    ensures x.s.f.Valid() && x.View().Valid() && x.View().g == x.s.f.g && |x.View().blocks| == |x.s.f.blocks|
    ensures forall b: nat :: b < |x.s.f.blocks| ==>
      x.View().blocks[b].phis == x.s.f.blocks[b].phis && |x.View().blocks[b].insts| == |x.s.f.blocks[b].insts|
  {
    hide SsaInst, FreshFrom, Escapes, AllUses, AreCells, DefsDominateUses, ViewFunc;
    ViewShape(x.s.f, x.s.uses, x.s.base);
  }

  /** Both programs take the same edge: an access never selects a successor. */
  lemma SameTarget(x: Sim, b: nat, p: Point, p': Point)
    requires x.Ok() && b < |x.s.f.blocks| && AlikePoints(p, p')
    ensures x.s.f.Valid() && x.View().Valid() && |x.View().blocks| == |x.s.f.blocks|
    ensures Seen(Leave(x.View(), x.o, b, p')) == Seen(Leave(x.s.f, x.o, b, p))
    ensures var t := Leave(x.s.f, x.o, b, p);
      t.At? ==> t.b < |x.s.f.blocks| && t.e == EnterPhis(x.s.f.blocks[t.b].phis, b, t.b, p.e)
                && Leave(x.View(), x.o, b, p').e == EnterPhis(x.s.f.blocks[t.b].phis, b, t.b, p'.e)
  {
    hide Sim.Ok, ViewFunc, EnterPhis;
    SimValid(x);
    var k := |x.s.f.blocks[b].insts| - 1;
    ViewAt(x.s.f, x.s.uses, x.s.base, b, k);
    TargetKept(x, b, k, p);
  }

  lemma TargetKept(x: Sim, b: nat, k: nat, p: Point)
    requires x.Ok() && InFunc(x.s.f, ByInst(b, k)) && p.Pt?
    ensures var inst := x.s.f.blocks[b].insts[k];
      Target(ViewInst(x.s.uses, x.s.base, b, k, inst).op, p.last, x.o, p.log) == Target(inst.op, p.last, x.o, p.log)
  {
    hide Sim.Ok, Split.Ok, Derived, Users;
    SimParts(x);
    if ByInst(b, k) in x.s.uses {
      var y := UseIsAccess(x.s, ByInst(b, k));
    }
  }

  lemma StepSim(x: Sim, t: MemState, s': State)
    requires x.Ok() && StatesRelated(x, t, s')
    ensures x.s.f.Valid() && x.View().Valid()
    ensures StatesRelated(x, StepMem(x.Before(), t), Step(x.View(), x.o, s'))
  {
    hide Sim.Ok, Related, ExecTo, Exec, ViewFunc, EnterPhis, EnterMarks, Leave;
    SimValid(x);
    if t.s.At? {
      var b, k := t.s.b, |x.s.f.blocks[t.s.b].insts|;
      var r := ExecTo(x.Before(), b, k, t.s.e, t.s.log, t.m);
      var p' := Exec(x.View(), x.o, b, k, s'.e, s'.log);
      if r.p.Pt? {
        BlockSim(x, b, k, t.s.e, s'.e, t.s.log, t.m);
        SameTarget(x, b, r.p, p');
        var u := Leave(x.s.f, x.o, b, r.p);
        if u.At? {
          EdgeSim(x, b, u.b, r.p.e, p'.e, r.m);
        }
      } else {
        WrongIsStuck(x.s.f, x.o, b);
      }
    }
  }

  lemma WrongIsStuck(f: Func, o: Oracle, b: nat)
    requires f.Valid() && b < |f.blocks|
    ensures Leave(f, o, b, Wrong) == Stuck
  {
  }

  lemma StartRelated(x: Sim)
    requires x.Ok()
    ensures StatesRelated(x, MemState(At(0, StartEnv(x.o), []), StartMem()), At(0, StartEnv(x.o), []))
  {
    hide Sim.Ok, Split.Ok, Derived, ConstantOf, Word;
    SimValid(x);
    EntryReachable(x.s.f.g);
    SimParts(x);
    hide Computes, Fits;
    forall u | u in x.s.uses
      ensures Content(x.w, map[], x.s.uses[u].0, x.s.uses[u].1) == None
    {
      SizePositive(x.s, x.w, u);
    }
  }

  lemma SizePositive(s: Split, w: World, u: User)
    requires s.Ok() && Fits(s, w) && u in s.uses
    ensures LoadBytes(map[], w.a + s.uses[u].0, w.size(s.uses[u].1)) == None
  {
    hide WellFormed, FreshFrom, Escapes, AllUses, AreCells, Pow2;
    var a := w.a + s.uses[u].0;
    var none: map<int, int> := map[];
    assert a < a + w.size(s.uses[u].1) && a !in none;
  }

  lemma {:induction false} RunSim(x: Sim, n: nat)
    requires x.Ok()
    ensures x.s.f.Valid() && x.View().Valid()
    ensures StatesRelated(x, StepsMem(x.Before(), n), Steps(x.View(), x.o, n))
  {
    hide Sim.Ok, StatesRelated, StepMem, Step;
    SimValid(x);
    if n == 0 {
      StartRelated(x);
    } else {
      RunSim(x, n - 1);
      StepSim(x, StepsMem(x.Before(), n - 1), Steps(x.View(), x.o, n - 1));
    }
  }

  // ---------------------------------------------------------------- offsets are exact

  ghost predicate AllShaped(f: Func) {
    forall b: nat, k: nat :: InFunc(f, ByInst(b, k)) ==> Shaped(f.blocks[b].insts[k])
  }

  lemma InstPlaced(f: Func, obj: Object, w: World, o: Oracle, b: nat, k: nat, e: Env, log: seq<Event>)
    requires InFunc(f, ByInst(b, k)) && Shaped(f.blocks[b].insts[k])
    requires Computes(f, obj, w, o) && Aligned(obj, w) && Placed(f, obj, w, e) && ConstantsOk(f, e)
    requires ExecInst(b, k, f.blocks[b].insts[k], o, e, log).Pt?
    ensures var e1 := ExecInst(b, k, f.blocks[b].insts[k], o, e, log).e; Placed(f, obj, w, e1) && ConstantsOk(f, e1)
  {
    OtherConstants(f, b, k, e, o, log);
    hide Derived, ConstantsOk, Computes, Word, Aligned;
    var e1 := ExecInst(b, k, f.blocks[b].insts[k], o, e, log).e;
    forall r, off: int | Derived(f, obj, r, off) && e1.refs(r).Some?
      ensures e1.refs(r).value == Word(w.m, w.a + off)
    {
      DerivedShape(f, obj, r, off);
      if r.b == b && r.k == k && 0 < |f.blocks[b].insts[k].rets| {
        ValueAfter(f, obj, w, o, b, k, e, log, off);
      }
    }
  }

  lemma {:induction false} BlockPlaced(f: Func, obj: Object, w: World, o: Oracle, b: nat, k: nat, e: Env,
                                       log: seq<Event>)
    requires b < |f.blocks| && k <= |f.blocks[b].insts| && AllShaped(f)
    requires Computes(f, obj, w, o) && Aligned(obj, w) && Placed(f, obj, w, e) && ConstantsOk(f, e)
    requires Exec(f, o, b, k, e, log).Pt?
    ensures var e1 := Exec(f, o, b, k, e, log).e; Placed(f, obj, w, e1) && ConstantsOk(f, e1)
  {
    hide Computes, Placed, ConstantsOk, Shaped, ExecInst, Aligned;
    if k > 0 {
      BlockPlaced(f, obj, w, o, b, k - 1, e, log);
      var p := Exec(f, o, b, k - 1, e, log);
      assert InFunc(f, ByInst(b, k - 1));
      InstPlaced(f, obj, w, o, b, k - 1, p.e, p.log);
    }
  }

  lemma EdgePlaced(f: Func, obj: Object, w: World, from: nat, to: nat, e: Env)
    requires to < |f.blocks| && Placed(f, obj, w, e) && ConstantsOk(f, e)
    ensures var e1 := EnterPhis(f.blocks[to].phis, from, to, e); Placed(f, obj, w, e1) && ConstantsOk(f, e1)
  {
    hide Derived, Word;
    var e1 := EnterPhis(f.blocks[to].phis, from, to, e);
    forall r, off: int | Derived(f, obj, r, off) && e1.refs(r).Some?
      ensures e1.refs(r).value == Word(w.m, w.a + off)
    {
      DerivedShape(f, obj, r, off);
    }
  }

  lemma {:induction false} RunPlaced(f: Func, obj: Object, w: World, o: Oracle, n: nat)
    requires f.Valid() && AllShaped(f) && Computes(f, obj, w, o) && Aligned(obj, w) && Steps(f, o, n).At?
    ensures Placed(f, obj, w, Steps(f, o, n).e) && ConstantsOk(f, Steps(f, o, n).e)
  {
    hide Computes, Placed, ConstantsOk, AllShaped, Exec, Aligned;
    if n == 0 {
      NothingPlaced(f, obj, w, o);
    } else {
      StepTaken(f, o, n - 1);
      RunPlaced(f, obj, w, o, n - 1);
      var s, t := Steps(f, o, n - 1), Steps(f, o, n);
      BlockPlaced(f, obj, w, o, s.b, |f.blocks[s.b].insts|, s.e, s.log);
      EdgePlaced(f, obj, w, s.b, t.b, AtEnd(f, o, s).e);
    }
  }

  lemma NothingPlaced(f: Func, obj: Object, w: World, o: Oracle)
    ensures Placed(f, obj, w, StartEnv(o)) && ConstantsOk(f, StartEnv(o))
  {
  }

  /** At every point of every run a derived value that has been computed is the address of the
      object plus its offset, modulo the word size. */
  lemma OffsetExact(f: Func, obj: Object, w: World, o: Oracle, n: nat, k: nat, r: Ref, off: int)
    requires f.Valid() && AllShaped(f) && Computes(f, obj, w, o) && Aligned(obj, w) && Derived(f, obj, r, off)
    requires Steps(f, o, n).At? && Steps(f, o, n).b < |f.blocks| && k <= |f.blocks[Steps(f, o, n).b].insts|
    ensures var s := Steps(f, o, n); var p := Exec(f, o, s.b, k, s.e, s.log);
      p.Pt? && p.e.refs(r).Some? ==> p.e.refs(r).value == Word(w.m, w.a + off)
  {
    hide Computes, ConstantsOk, AllShaped, Exec, Aligned, Steps, Derived, Word;
    RunPlaced(f, obj, w, o, n);
    var s := Steps(f, o, n);
    if Exec(f, o, s.b, k, s.e, s.log).Pt? {
      BlockPlaced(f, obj, w, o, s.b, k, s.e, s.log);
    }
  }
}
