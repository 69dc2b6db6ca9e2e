/** Loads and stores of a stack object as accesses to bytes, and why its cells may be taken
    for registers instead (passes/mem_to_reg.cpp).

    The machine here runs the program before promotion.  An address of the object is marked
    when it is computed and stays marked wherever it is copied; loads and stores through marked
    addresses reach the bytes of the object.  Once a marked address is stored, passed on or put
    to any other use, the object has leaked and anything may happen to its bytes from then on. */
module CellMemory {
  import opened Cfg
  import opened DeadPhis
  import opened Options
  import opened Ssa
  import opened SsaForm
  import opened Words
  import opened CellFind
  import opened CellBytes

  // ---------------------------------------------------------------- the machine

  /** Where the object is, in words of m bits, how values are kept in bytes, and what becomes of
      a leaked object. */
  datatype World = World(
    m: nat,
    a: nat,
    len: nat,
    size: nat -> nat,
    encode: (nat, Val) -> seq<int>,
    decode: (nat, seq<int>) -> Val,
    disturb: (seq<Event>, map<int, int>) -> map<int, int>)

  datatype Machine = Machine(f: Func, obj: Object, w: World, o: Oracle)

  /** The object: its bytes, which references hold marked addresses, whether it has leaked, and
      the accesses so far. */
  datatype Mem = Mem(bytes: map<int, int>, marks: Ref -> bool, leaked: bool, accesses: seq<Access>)

  datatype MemPoint = MemPoint(p: Point, m: Mem)

  predicate Marked(a: Operand, m: Mem) {
    a.Use? && m.marks(a.r)
  }

  predicate AnyMarked(args: seq<Operand>, m: Mem) {
    exists j :: 0 <= j < |args| && Marked(args[j], m)
  }

  predicate ObjectLoad(inst: Inst, m: Mem) {
    inst.op.Load? && |inst.args| == 1 && Marked(inst.args[0], m)
  }

  predicate ObjectStore(inst: Inst, m: Mem) {
    inst.op.Store? && |inst.args| == 2 && Marked(inst.args[0], m)
  }

  predicate InObject(w: World, a: int, ty: nat) {
    w.a <= a && a + w.size(ty) <= w.a + w.len
  }

  /** Marks or unmarks the results of an instruction. */
  function MarkResults(marks: Ref -> bool, b: nat, k: nat, n: nat, flag: bool): Ref -> bool {
    (r: Ref) => if r.Res? && r.b == b && r.k == k && r.i < n then flag else marks(r)
  }

  predicate Moves(op: Op) {
    op.Mov? || op.Add? || op.Sub? || op.Or?
  }

  /** A load of bytes that have all been stored; outside the object, or of other bytes, it is wrong. */
  function LoadObject(x: Machine, b: nat, k: nat, inst: Inst, a: Val, e: Env, log: seq<Event>, m: Mem): MemPoint
    requires inst.op.Load?
  {
    var ty := inst.op.ty;
    if InObject(x.w, a, ty) && LoadBytes(m.bytes, a, x.w.size(ty)).Some? then
      var v := x.w.decode(ty, LoadBytes(m.bytes, a, x.w.size(ty)).value);
      MemPoint(
        Pt(Write(e, b, k, inst.(op := Op.Mov(false)), [v], x.o, log), log, [v]),
        m.(marks := MarkResults(m.marks, b, k, |inst.rets|, false), accesses := m.accesses + [Loaded(ByInst(b, k))]))
    else MemPoint(Wrong, m)
  }

  /** A store of a value that its type can represent; outside the object, or of another value, it is wrong. */
  function StoreObject(x: Machine, b: nat, k: nat, inst: Inst, a: Val, v: Val, e: Env, log: seq<Event>,
                       m: Mem): MemPoint
    requires inst.op.Store? && |inst.args| == 2
  {
    var ty := inst.op.ty;
    var bytes := x.w.encode(ty, v);
    if InObject(x.w, a, ty) && x.w.decode(ty, bytes) == v then
      MemPoint(
        Pt(e, log, [v]),
        m.(bytes := StoreBytes(m.bytes, a, bytes), leaked := m.leaked || Marked(inst.args[1], m),
           accesses := m.accesses + [Stored(ByInst(b, k), bytes)]))
    else MemPoint(Wrong, m)
  }

  /** Any other instruction: it leaks the object if it puts a marked address to another use than
      computing an address from it. */
  function ExecOther(x: Machine, b: nat, k: nat, inst: Inst, e: Env, log: seq<Event>, m: Mem): MemPoint {
    var p := ExecInst(b, k, inst, x.o, e, log);
    if p.Wrong? then MemPoint(p, m) else
      var leaked := m.leaked || (AnyMarked(inst.args, m) && !Moves(inst.op));
      var flag := AnyMarked(inst.args, m) || (inst.op.Frame? && inst.op.slot == x.obj.index);
      MemPoint(p, Mem(
        if leaked then x.w.disturb(p.log, m.bytes) else m.bytes,
        MarkResults(m.marks, b, k, |inst.rets|, flag), leaked, m.accesses))
  }

  function ExecMem(x: Machine, b: nat, k: nat, e: Env, log: seq<Event>, m: Mem): MemPoint
    requires InFunc(x.f, ByInst(b, k))
  {
    var inst := UserInst(x.f, ByInst(b, k));
    if !Ssa.Defined(inst.args, e) then MemPoint(Wrong, m)
    else if ObjectLoad(inst, m) then LoadObject(x, b, k, inst, Values(inst.args, e)[0], e, log, m)
    else if ObjectStore(inst, m) then
      StoreObject(x, b, k, inst, Values(inst.args, e)[0], Values(inst.args, e)[1], e, log, m)
    else ExecOther(x, b, k, inst, e, log, m)
  }

  /** The point before instruction k of block b when the block is entered with e, log and m. */
  function ExecTo(x: Machine, b: nat, k: nat, e: Env, log: seq<Event>, m: Mem): MemPoint
    requires b < |x.f.blocks| && k <= |x.f.blocks[b].insts|
  {
    if k == 0 then MemPoint(Pt(e, log, []), m)
    else
      var before := ExecTo(x, b, k - 1, e, log, m);
      match before.p
      case Wrong => before
      case Pt(e1, log1, _) => ExecMem(x, b, k - 1, e1, log1, before.m)
  }

  /** PHIs copy marks along the edge taken. */
  function EnterMarks(phis: map<nat, map<nat, Operand>>, from: nat, to: nat, m: Mem): Mem {
    m.(marks := (r: Ref) =>
      if r.Phi? && r.b == to && r.id in phis then from in phis[r.id] && Marked(phis[r.id][from], m)
      else m.marks(r))
  }

  datatype MemState = MemState(s: State, m: Mem)

  function StartMem(): Mem {
    Mem(map[], (r: Ref) => false, false, [])
  }

  ghost function StepMem(x: Machine, t: MemState): MemState
    requires x.f.Valid()
  {
    match t.s
    case At(b, e, log) =>
      if b < |x.f.blocks| then
        var p := ExecTo(x, b, |x.f.blocks[b].insts|, e, log, t.m);
        var s := Leave(x.f, x.o, b, p.p);
        MemState(s, if s.At? && s.b < |x.f.blocks| then EnterMarks(x.f.blocks[s.b].phis, b, s.b, p.m) else p.m)
      else MemState(Stuck, t.m)
    case _ => t
  }

  ghost function StepsMem(x: Machine, n: nat): MemState
    requires x.f.Valid()
  {
    if n == 0 then MemState(At(0, StartEnv(x.o), []), StartMem()) else StepMem(x, StepsMem(x, n - 1))
  }

  // ---------------------------------------------------------------- well-formed programs and worlds

  predicate SsaOperand(f: Func, a: Operand) {
    !a.VReg? && (a.Use? ==> IsResult(f, a.r))
  }

  /** The instructions that deal with addresses have the operands they need and one result. */
  predicate Shaped(inst: Inst) {
    match inst.op
    case Frame(_, _) => inst.args == [] && |inst.rets| <= 1
    case Mov(_) => |inst.args| == 1 && |inst.rets| <= 1
    case Load(_) => |inst.args| == 1 && |inst.rets| <= 1
    case Store(_) => |inst.args| == 2 && inst.rets == []
    case Add => |inst.args| == 2 && |inst.rets| <= 1
    case Sub => |inst.args| == 2 && |inst.rets| <= 1
    case Or => |inst.args| == 2 && |inst.rets| <= 1
    case _ => true
  }

  ghost predicate SsaInst(f: Func, b: nat, k: nat)
    requires InFunc(f, ByInst(b, k))
  {
    var inst := UserInst(f, ByInst(b, k));
    && Shaped(inst)
    && forall j :: 0 <= j < |inst.args| ==> SsaOperand(f, inst.args[j]) && (inst.args[j] == Undef ==> UndefMove(inst))
  }

  /** A program in SSA form, without virtual registers. */
  ghost predicate WellFormed(f: Func) {
    && f.Valid() && EntryHasNoPreds(f.g) && f.blocks[0].phis == map[] && DefsDominateUses(f)
    && (forall b: nat, k: nat :: InFunc(f, ByInst(b, k)) ==> SsaInst(f, b, k))
    && forall b: nat, id, p :: b < |f.blocks| && id in f.blocks[b].phis && p in f.blocks[b].phis[id] ==>
         SsaOperand(f, f.blocks[b].phis[id][p])
  }

  /** No virtual register and no PHI number is base or greater. */
  ghost predicate FreshFrom(f: Func, base: nat) {
    && (forall b: nat, k: nat, v: nat :: InFunc(f, ByInst(b, k)) && v in UserInst(f, ByInst(b, k)).rets ==> v < base)
    && forall b: nat, id: nat :: b < |f.blocks| && id in f.blocks[b].phis ==> id < base
  }

  /** An object that the pass splits into cells, numbered from base. */
  datatype Split = Split(f: Func, obj: Object, size: nat -> nat, uses: map<User, (int, nat)>, base: nat)
  {
    ghost predicate Ok() {
      && WellFormed(f) && FreshFrom(f, base)
      && !Escapes(f, obj) && AllUses(f, obj, uses) && AreCells(size, uses) && (forall ty: nat :: size(ty) > 0)
    }
  }

  /** The object is aligned and lies in the address space, and offsets are words. */
  ghost predicate Fits(s: Split, w: World) {
    && w.size == s.size && w.a + w.len <= Pow2(w.m)
    && Aligned(s.obj, w)
    && (forall ty: nat, v: Val :: |w.encode(ty, v)| == w.size(ty))
    && forall u :: u in s.uses ==> s.uses[u].0 < Pow2(w.m)
  }

  predicate Aligned(obj: Object, w: World) {
    obj.align.Some? ==> obj.align.value <= w.m && w.a % Pow2(obj.align.value) == 0
  }

  /** The operations on addresses of the object do what they should. */
  ghost predicate Computes(f: Func, obj: Object, w: World, o: Oracle) {
    forall b: nat, k: nat, off: int, vals: seq<Val>, log: seq<Event> ::
      InFunc(f, ByInst(b, k)) && Derived(f, obj, Res(b, k, 0), off) ==>
      var op := UserInst(f, ByInst(b, k)).op;
      ComputesAt(op, w, vals, o.eval(log + [Event(b, k, op, vals)], 0))
  }

  predicate ComputesAt(op: Op, w: World, vals: seq<Val>, v: Val) {
    match op
    case Frame(_, off) => v == Word(w.m, w.a + off)
    case Add => |vals| == 2 ==> v == Word(w.m, vals[0] + vals[1])
    case Sub => |vals| == 2 ==> v == Word(w.m, vals[0] - vals[1])
    case Or => |vals| == 2 && vals[1] >= 0 ==> v == BitOr(vals[0], vals[1])
    case _ => true
  }

  // ---------------------------------------------------------------- derived addresses of an object

  lemma FrameDerived(f: Func, obj: Object, fr: Ref, off: int)
    requires IsFrame(f, obj, fr, off)
    ensures Derived(f, obj, fr, off)
  {
    StartsAtFrame(f, obj.align, fr, off);
  }

  lemma DerivedNext(f: Func, obj: Object, y: Ref, x: Ref, o: int, off: int)
    requires Derived(f, obj, y, o) && IsStep(f, obj.align, y, x, o, off)
    ensures Derived(f, obj, x, off)
  {
    hide IsStep, IsFrame, DerivedFrom;
    var fr, off0: int :| IsFrame(f, obj, fr, off0) && DerivedFrom(f, obj.align, fr, off0, y, o);
    DerivedStep(f, obj.align, fr, off0, y, x, o, off);
  }

  ghost predicate StepsFrom(f: Func, obj: Object, y: Ref, x: Ref, o: int, off: int) {
    Derived(f, obj, y, o) && IsStep(f, obj.align, y, x, o, off)
  }

  lemma DerivedBefore(f: Func, obj: Object, x: Ref, off: int)
    requires Derived(f, obj, x, off)
    ensures IsFrame(f, obj, x, off) || exists y, o: int :: StepsFrom(f, obj, y, x, o, off)
  {
    hide IsStep, IsFrame;
    var fr, off0: int :| IsFrame(f, obj, fr, off0) && DerivedFrom(f, obj.align, fr, off0, x, off);
    var p :| TraceTo(f, obj.align, fr, off0, x, off, p);
    if |p| > 1 {
      var y, o := LastStep(f, obj.align, fr, off0, x, off, p);
      assert Derived(f, obj, y, o);
      assert StepsFrom(f, obj, y, x, o, off);
    }
  }

  lemma IsOperand(f: Func, b: nat, k: nat, j: nat, r: Ref)
    requires InFunc(f, ByInst(b, k)) && j < |UserInst(f, ByInst(b, k)).args|
    requires UserInst(f, ByInst(b, k)).args[j] == Use(r)
    ensures ByInst(b, k) in Users(f, r)
  {
    assert IsUser(f, r, ByInst(b, k));
  }

  lemma OperandOf(f: Func, b: nat, k: nat, r: Ref) returns (j: nat)
    requires ByInst(b, k) in Users(f, r)
    ensures InFunc(f, ByInst(b, k)) && j < |UserInst(f, ByInst(b, k)).args|
    ensures UserInst(f, ByInst(b, k)).args[j] == Use(r)
  {
    assert IsUser(f, r, ByInst(b, k));
    j :| j < |UserInst(f, ByInst(b, k)).args| && UserInst(f, ByInst(b, k)).args[j] == Use(r);
  }

  lemma NoEscape(s: Split, r: Ref, off: int, u: User)
    requires s.Ok() && Derived(s.f, s.obj, r, off) && u in Users(s.f, r)
    ensures Trackable(s.f, s.obj.align, u, r)
  {
    hide WellFormed, FreshFrom, AllUses, AreCells, Users, Derived, Trackable;
  }

  /** An access through an address of the object is one of the uses. */
  lemma AccessIsUse(s: Split, r: Ref, off: int, u: User)
    requires s.Ok() && Derived(s.f, s.obj, r, off) && u in Users(s.f, r) && Accesses(s.f, u, r)
    ensures u in s.uses && s.uses[u] == (off, TypeOf(s.f, u))
  {
    hide WellFormed, FreshFrom, Escapes, AreCells, Users, Derived, Accesses, TypeOf;
    assert AccessOf(s.f, u, r, TypeOf(s.f, u));
    assert IsUse(s.f, s.obj, u, off, TypeOf(s.f, u));
  }

  /** And a use accesses the object through one of its addresses. */
  lemma UseIsAccess(s: Split, u: User) returns (r: Ref)
    requires s.Ok() && u in s.uses
    ensures Derived(s.f, s.obj, r, s.uses[u].0) && AccessOf(s.f, u, r, s.uses[u].1)
  {
    hide WellFormed, FreshFrom, Escapes, AreCells, Derived, AccessOf;
    assert IsUse(s.f, s.obj, u, s.uses[u].0, s.uses[u].1);
    r :| Derived(s.f, s.obj, r, s.uses[u].0) && AccessOf(s.f, u, r, s.uses[u].1);
  }
}
