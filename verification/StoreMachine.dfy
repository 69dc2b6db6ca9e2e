/** Functions seen as stores to known atoms and instructions that may observe or change all
    of memory, and their runs (what passes/dead_store.cpp distinguishes). */
module StoreMachine {
  import opened Cfg
  import opened Options

  /** The address operand of a store: a symbol, a symbol with an offset, or anything else. */
  datatype Addr = Atom(g: nat) | AtomOffset(g: nat, off: int) | Computed

  /** id identifies the instruction.  A conditional store may fail.  Touch stands for loads,
      calls, barriers and exchanges. */
  datatype Inst = Store(id: nat, addr: Addr, width: nat, cond: bool) | Touch(id: nat) | Pure

  /** alone holds the atoms that are the only atom of their object. */
  datatype Func = Func(g: Graph, blocks: seq<seq<Inst>>, alone: set<nat>)
  {
    ghost predicate Formed() {
      g.Valid() && |blocks| == |g.succs|
    }

    /** Stores have a width and are told apart by their identity. */
    ghost predicate Valid() {
      && Formed()
      && (forall b: nat, k: nat :: b < |blocks| && k < |blocks[b]| && blocks[b][k].Store? ==> blocks[b][k].width > 0)
      && (forall b: nat, k: nat, c: nat, j: nat ::
            PlacedAt(this, b, k) && PlacedAt(this, c, j) && blocks[b][k].id == blocks[c][j].id ==> b == c && k == j)
    }
  }

  /** Instruction k of block b is a store. */
  predicate PlacedAt(f: Func, b: nat, k: nat) {
    b < |f.blocks| && k < |f.blocks[b]| && f.blocks[b][k].Store?
  }

  /** The address is the start of an atom that is the only one of its object. */
  predicate AtStart(alone: set<nat>, addr: Addr, a: nat) {
    a in alone && (addr == Atom(a) || addr == AtomOffset(a, 0))
  }

  /** The atom an address is known to be the start of. */
  function ToGlobal(alone: set<nat>, addr: Addr): (r: Option<nat>)
    ensures forall a: nat :: r == Some(a) <==> AtStart(alone, addr, a)
  {
    match addr
    case Atom(g) => if g in alone then Some(g) else None
    case AtomOffset(g, off) => if g in alone && off == 0 then Some(g) else None
    case Computed => None
  }

  // ---------------------------------------------------------------- runs

  /** A byte of an atom that is alone in its object, at an offset inside or outside the atom, or
      any other byte. */
  datatype Loc = Byte(g: nat, off: int) | Cell(a: int)
  type Memory = map<Loc, int>

  /** What is learnt of memory: the outcome of a conditional store or of touching memory. */
  datatype Event = Tried(ok: bool) | Touched(e: int)

  /** Values, effects and decisions depend on everything learnt so far; atoms that share an
      object are placed somewhere. */
  datatype Oracle = Oracle(
    value: (nat, seq<Event>, nat) -> int,
    touch: (nat, Memory, seq<Event>) -> (Memory, int),
    branch: (nat, seq<Event>) -> nat,
    succeed: (nat, seq<Event>) -> bool,
    place: nat -> int)

  /** The byte at an offset from an atom. */
  function Where(alone: set<nat>, o: Oracle, g: nat, off: int): Loc {
    if g in alone then Byte(g, off) else Cell(o.place(g) + off)
  }

  predicate SameAt(loc: Loc, m: Memory, m': Memory) {
    (loc in m <==> loc in m') && (loc in m ==> m[loc] == m'[loc])
  }

  /** How far a location is from an atom, if it can be a byte at an offset from it. */
  function Distance(alone: set<nat>, o: Oracle, g: nat, loc: Loc): Option<int> {
    match loc
    case Byte(h, off) => if g in alone && h == g then Some(off) else None
    case Cell(a) => if g in alone then None else Some(a - o.place(g))
  }

  predicate Within(alone: set<nat>, o: Oracle, g: nat, off: int, width: nat, loc: Loc) {
    var d := Distance(alone, o, g, loc);
    d.Some? && off <= d.value < off + width
  }

  /** Writes the bytes one after the other. */
  function Write(alone: set<nat>, o: Oracle, m: Memory, g: nat, off: int, width: nat, v: nat -> int): (m': Memory)
    ensures forall loc: Loc ::
      if Within(alone, o, g, off, width, loc) then
        loc in m' && m'[loc] == v(Distance(alone, o, g, loc).value - off)
      else SameAt(loc, m', m)
  {
    if width == 0 then m
    else Write(alone, o, m, g, off, width - 1, v)[Where(alone, o, g, off + width - 1) := v(width - 1)]
  }

  /** Stores width bytes at an offset from an atom. */
  function StoreAt(alone: set<nat>, id: nat, g: nat, off: int, width: nat, cond: bool, o: Oracle, m: Memory,
                   log: seq<Event>): (Memory, seq<Event>)
  {
    var written := Write(alone, o, m, g, off, width, (i: nat) => o.value(id, log, i));
    if cond then (if o.succeed(id, log) then written else m, log + [Tried(o.succeed(id, log))])
    else (written, log)
  }

  function Effect(alone: set<nat>, inst: Inst, o: Oracle, m: Memory, log: seq<Event>): (Memory, seq<Event>) {
    match inst
    case Pure => (m, log)
    case Touch(id) => var (m', e) := o.touch(id, m, log); (m', log + [Touched(e)])
    case Store(id, addr, width, cond) =>
      match addr
      case Computed => var (m', e) := o.touch(id, m, log); (m', log + [Touched(e)])
      case Atom(g) => StoreAt(alone, id, g, 0, width, cond, o, m, log)
      case AtomOffset(g, off) => StoreAt(alone, id, g, off, width, cond, o, m, log)
  }

  /** A store to the start of an atom that is alone changes the first bytes of the atom, or
      nothing if it fails. */
  lemma StartEffect(alone: set<nat>, inst: Inst, g: nat, o: Oracle, m: Memory, log: seq<Event>)
    requires inst.Store? && AtStart(alone, inst.addr, g)
    ensures var (m1, log1) := Effect(alone, inst, o, m, log);
      && log1 == (if inst.cond then log + [Tried(o.succeed(inst.id, log))] else log)
      && (inst.cond && !o.succeed(inst.id, log) ==> m1 == m)
      && forall loc: Loc ::
           if loc.Byte? && loc.g == g && 0 <= loc.off < inst.width && (inst.cond ==> o.succeed(inst.id, log)) then
             loc in m1 && m1[loc] == o.value(inst.id, log, loc.off)
           else SameAt(loc, m1, m)
  {
    var v := (i: nat) => o.value(inst.id, log, i);
    var w := Write(alone, o, m, g, 0, inst.width, v);
    forall loc: Loc
      ensures Within(alone, o, g, 0, inst.width, loc) <==> loc.Byte? && loc.g == g && 0 <= loc.off < inst.width
      ensures Within(alone, o, g, 0, inst.width, loc) ==> v(loc.off) == o.value(inst.id, log, loc.off)
    {
    }
  }

  function Exec(alone: set<nat>, insts: seq<Inst>, o: Oracle, m: Memory, log: seq<Event>): (Memory, seq<Event>) {
    if insts == [] then (m, log) else
      var (m', log') := Effect(alone, insts[0], o, m, log);
      Exec(alone, insts[1..], o, m', log')
  }

  /** A run stands at the start of a block or has left the function. */
  datatype State = At(b: nat, m: Memory, log: seq<Event>) | Halted(m: Memory, log: seq<Event>)

  function Step(f: Func, o: Oracle, n: nat, s: State): (s': State)
    requires f.Formed() && (s.At? ==> s.b < |f.blocks|)
    ensures s'.At? ==> s'.b < |f.blocks|
  {
    if s.Halted? then s else
      var (m, log) := Exec(f.alone, f.blocks[s.b], o, s.m, s.log);
      var succs := f.g.succs[s.b];
      if succs == [] then Halted(m, log) else At(succs[o.branch(n, log) % |succs|], m, log)
  }

  function Steps(f: Func, o: Oracle, m0: Memory, n: nat): (s: State)
    requires f.Formed()
    ensures s.At? ==> s.b < |f.blocks|
  {
    if n == 0 then At(0, m0, []) else Step(f, o, n - 1, Steps(f, o, m0, n - 1))
  }

  lemma {:induction false} StateReachable(f: Func, o: Oracle, m0: Memory, n: nat)
    requires f.Formed() && Steps(f, o, m0, n).At?
    ensures Reachable(f.g, Steps(f, o, m0, n).b)
  {
    if n == 0 {
      EntryReachable(f.g);
    } else {
      var s := Steps(f, o, m0, n - 1);
      assert s.At?;
      StateReachable(f, o, m0, n - 1);
      EdgeReachable(f.g, s.b, Steps(f, o, m0, n).b);
    }
  }

  lemma {:induction false} ExecSplit(alone: set<nat>, insts: seq<Inst>, k: nat, o: Oracle, m: Memory, log: seq<Event>)
    requires k <= |insts|
    ensures var (m', log') := Exec(alone, insts[..k], o, m, log);
      Exec(alone, insts, o, m, log) == Exec(alone, insts[k..], o, m', log')
  {
    if k > 0 {
      var (m', log') := Effect(alone, insts[0], o, m, log);
      ExecSplit(alone, insts[1..], k - 1, o, m', log');
      assert insts[1..][..k - 1] == insts[..k][1..];
      assert insts[1..][k - 1..] == insts[k..];
    } else {
      assert insts[..0] == [] && insts[0..] == insts;
    }
  }

  lemma {:induction false} ExecAppend(alone: set<nat>, s: seq<Inst>, t: seq<Inst>, o: Oracle, m: Memory,
                                      log: seq<Event>)
    ensures var (m', log') := Exec(alone, s, o, m, log);
      Exec(alone, s + t, o, m, log) == Exec(alone, t, o, m', log')
  {
    ExecSplit(alone, s + t, |s|, o, m, log);
    assert (s + t)[..|s|] == s && (s + t)[|s|..] == t;
  }
}
