/** The intermediate representation and the machine that runs it.

    One machine serves programs before and after SSA construction: a result of an
    instruction is stored under its reference and, as long as the parser's mapping from
    results to virtual registers exists, in its virtual register as well.  Everything the
    model does not interpret (memory, calls, the outside world) is an oracle, an arbitrary
    function of the history of operand values read so far; two programs with the same
    histories under every oracle behave identically. */
module Ssa {
  import opened Cfg
  import opened Options

  /** Values are bit patterns. */
  type Val = int

  datatype Cond =
    | EQ | OEQ | UEQ | NE | ONE | UNE | LT | OLT | ULT | GT | OGT | UGT
    | LE | OLE | ULE | GE | OGE | UGE | O | UO

  /** Instruction kinds.  fp tells whether the value moved or compared is floating-point, ty is
      the type of the value loaded or stored.  The machine interprets only those before Frame. */
  datatype Op =
    | Mov(fp: bool)
    | Arg(index: nat, fp: bool)
    | Cmp(cc: Cond, fp: bool)
    | Jump
    | JumpCond
    | Switch
    | Frame(slot: nat, off: int)
    | Load(ty: nat)
    | Store(ty: nat)
    | Add
    | Sub
    | Or
    | And
    | Other

  /** A PHI of block b, or the ith result of the kth instruction of block b. */
  datatype Ref = Phi(b: nat, id: nat) | Res(b: nat, k: nat, i: nat)

  datatype Operand = VReg(v: nat) | Imm(c: Val) | Use(r: Ref) | Undef

  /** rets maps each result to the virtual register it was written to in the source text. */
  datatype Inst = Inst(op: Op, args: seq<Operand>, rets: seq<nat>)

  /** phis maps a PHI to its operand for each predecessor. */
  datatype Block = Block(phis: map<nat, map<nat, Operand>>, insts: seq<Inst>)

  datatype Func = Func(g: Graph, blocks: seq<Block>)
  {
    ghost predicate Valid() {
      && g.Valid()
      && |blocks| == |g.succs|
      && forall b :: 0 <= b < |blocks| ==> |blocks[b].insts| > 0
    }
  }

  // ---------------------------------------------------------------- evaluation

  /** What an instruction shows when it executes: what it is and what it reads. */
  datatype Event = Event(b: nat, k: nat, op: Op, args: seq<Val>)

  datatype Oracle = Oracle(
    eval: (seq<Event>, nat) -> Val,
    branch: seq<Event> -> nat,
    param: nat -> Val,
    real_: Val -> Option<real>,
    undef: Val)

  /** undef is the arbitrary value that undefined operands read. */
  datatype Env = Env(refs: Ref -> Option<Val>, vregs: nat -> Option<Val>, undef: Val)

  datatype Rel = Less | Equal | Greater | Unordered

  function Unsigned(a: Val): int { a % 0x1_0000_0000_0000_0000 }

  function Compare(a: int, b: int): Rel {
    if a < b then Less else if a == b then Equal else Greater
  }

  /** How two operands relate: NaN is the pattern without a real value. */
  function RelOf(cc: Cond, fp: bool, a: Val, b: Val, o: Oracle): Rel {
    if fp then
      match (o.real_(a), o.real_(b))
      case (Some(x), Some(y)) => if x < y then Less else if x == y then Equal else Greater
      case _ => Unordered
    else if cc in {ULT, UGT, ULE, UGE} then Compare(Unsigned(a), Unsigned(b))
    else Compare(a, b)
  }

  predicate Holds(cc: Cond, r: Rel) {
    match cc
    case EQ | OEQ => r == Equal
    case UEQ => r == Equal || r == Unordered
    case NE | UNE => r != Equal
    case ONE => r == Less || r == Greater
    case LT | OLT => r == Less
    case ULT => r == Less || r == Unordered
    case GT | OGT => r == Greater
    case UGT => r == Greater || r == Unordered
    case LE | OLE => r == Less || r == Equal
    case ULE => r != Greater
    case GE | OGE => r == Greater || r == Equal
    case UGE => r != Less
    case O => r != Unordered
    case UO => r == Unordered
  }

  function Bool(b: bool): Val { if b then 1 else 0 }

  predicate Pure(op: Op) { op.Mov? || op.Arg? || op.Cmp? }

  /** The ith result; log ends with the event of the instruction itself unless it is pure. */
  function Result(op: Op, vals: seq<Val>, o: Oracle, log: seq<Event>, i: nat): Val {
    match op
    case Mov(_) => if |vals| == 1 then vals[0] else 0
    case Arg(index, _) => o.param(index)
    case Cmp(cc, fp) => if |vals| == 2 then Bool(Holds(cc, RelOf(cc, fp, vals[0], vals[1], o))) else 0
    case _ => o.eval(log, i)
  }

  function Read(a: Operand, e: Env): Option<Val> {
    match a
    case VReg(v) => e.vregs(v)
    case Imm(c) => Some(c)
    case Use(r) => e.refs(r)
    case Undef => Some(e.undef)
  }

  predicate Defined(args: seq<Operand>, e: Env) {
    forall j :: 0 <= j < |args| ==> Read(args[j], e).Some?
  }

  function Values(args: seq<Operand>, e: Env): seq<Val>
    requires Defined(args, e)
  {
    seq(|args|, j requires 0 <= j < |args| => Read(args[j], e).value)
  }

  function Write(e: Env, b: nat, k: nat, inst: Inst, vals: seq<Val>, o: Oracle, log: seq<Event>): Env {
    Env(
      (r: Ref) =>
        if r.Res? && r.b == b && r.k == k && r.i < |inst.rets| then Some(Result(inst.op, vals, o, log, r.i))
        else e.refs(r),
      (v: nat) =>
        if v in inst.rets then Some(Result(inst.op, vals, o, log, Last(inst.rets, v))) else e.vregs(v),
      e.undef)
  }

  /** A point inside a block; last holds the operands of the instruction just executed. */
  datatype Point = Pt(e: Env, log: seq<Event>, last: seq<Val>) | Wrong

  function ExecInst(b: nat, k: nat, inst: Inst, o: Oracle, e: Env, log: seq<Event>): Point {
    if Defined(inst.args, e) then
      var vals := Values(inst.args, e);
      var log' := if Pure(inst.op) then log else log + [Event(b, k, inst.op, vals)];
      Pt(Write(e, b, k, inst, vals, o, log'), log', vals)
    else Wrong
  }

  /** The point before instruction k of block b when the block is entered with e and log. */
  function Exec(f: Func, o: Oracle, b: nat, k: nat, e: Env, log: seq<Event>): Point
    requires b < |f.blocks| && k <= |f.blocks[b].insts|
  {
    if k == 0 then Pt(e, log, [])
    else
      match Exec(f, o, b, k - 1, e, log)
      case Wrong => Wrong
      case Pt(e1, log1, _) => ExecInst(b, k - 1, f.blocks[b].insts[k - 1], o, e1, log1)
  }

  /** The successor index the terminator selects. */
  function Target(op: Op, last: seq<Val>, o: Oracle, log: seq<Event>): int {
    match op
    case JumpCond => if |last| > 0 then (if last[0] != 0 then 0 else 1) else -1
    case Switch => if |last| > 0 then last[0] else -1
    case _ => o.branch(log)
  }

  /** All PHIs of a block read their operands at once when an edge is taken. */
  function EnterPhis(phis: map<nat, map<nat, Operand>>, from: nat, to: nat, e: Env): Env {
    e.(refs := (r: Ref) =>
      if r.Phi? && r.b == to && r.id in phis then
        (if from in phis[r.id] then Read(phis[r.id][from], e) else None)
      else e.refs(r))
  }

  /** At(b, e, log): block b has been entered and its PHIs have been evaluated. */
  datatype State = At(b: nat, e: Env, log: seq<Event>) | Halted(log: seq<Event>) | Stuck

  function Leave(f: Func, o: Oracle, b: nat, p: Point): State
    requires b < |f.blocks| && |f.blocks| == |f.g.succs| && |f.blocks[b].insts| > 0
  {
    match p
    case Wrong => Stuck
    case Pt(e, log, last) =>
      var insts := f.blocks[b].insts;
      var succs := f.g.succs[b];
      var i := Target(insts[|insts| - 1].op, last, o, log);
      if succs == [] then Halted(log)
      else if 0 <= i < |succs| && succs[i] < |f.blocks| then
        At(succs[i], EnterPhis(f.blocks[succs[i]].phis, b, succs[i], e), log)
      else Stuck
  }

  ghost function Step(f: Func, o: Oracle, s: State): State
    requires f.Valid()
  {
    match s
    case At(b, e, log) =>
      if b < |f.blocks| then Leave(f, o, b, Exec(f, o, b, |f.blocks[b].insts|, e, log)) else Stuck
    case _ => s
  }

  /** Nothing has a value yet. */
  function StartEnv(o: Oracle): Env {
    Env((r: Ref) => None, (v: nat) => None, o.undef)
  }

  ghost function Steps(f: Func, o: Oracle, n: nat): State
    requires f.Valid()
  {
    if n == 0 then At(0, StartEnv(o), []) else Step(f, o, Steps(f, o, n - 1))
  }

  lemma StepsNext(f: Func, o: Oracle, n: nat)
    requires f.Valid()
    ensures Steps(f, o, 0) == At(0, StartEnv(o), [])
    ensures Steps(f, o, n + 1) == Step(f, o, Steps(f, o, n))
    ensures !Steps(f, o, n).At? ==> Steps(f, o, n + 1) == Steps(f, o, n)
  {
  }

  // ---------------------------------------------------------------- what a run shows

  /** The visible part of a state: where the run is and every operand value read so far. */
  datatype View = AtBlock(b: nat, log: seq<Event>) | Exited(log: seq<Event>) | Failed

  function Seen(s: State): View {
    match s
    case At(b, _, log) => AtBlock(b, log)
    case Halted(log) => Exited(log)
    case Stuck => Failed
  }

  /** The blocks entered by the first n steps of a run that is still going. */
  ghost function Trail(f: Func, o: Oracle, n: nat): seq<nat>
    requires f.Valid() && Steps(f, o, n).At?
  {
    if n == 0 then [0] else Trail(f, o, n - 1) + [Steps(f, o, n).b]
  }

  lemma {:induction false} TrailIsRun(f: Func, o: Oracle, n: nat)
    requires f.Valid() && Steps(f, o, n).At?
    ensures |Trail(f, o, n)| == n + 1 && RunTo(f.g, Trail(f, o, n), Steps(f, o, n).b)
  {
    if n > 0 {
      TrailIsRun(f, o, n - 1);
      var s := Steps(f, o, n - 1);
      assert Edge(f.g, s.b, Steps(f, o, n).b);
      ConcatPath(f.g, Trail(f, o, n - 1), [Steps(f, o, n).b]);
    }
  }

  lemma {:induction false} TrailAt(f: Func, o: Oracle, n: nat, m: nat)
    requires f.Valid() && Steps(f, o, n).At? && m <= n
    ensures Steps(f, o, m).At? && |Trail(f, o, n)| == n + 1
    ensures Trail(f, o, n)[m] == Steps(f, o, m).b
    ensures Trail(f, o, n)[..m + 1] == Trail(f, o, m)
  {
    TrailIsRun(f, o, n);
    if m < n {
      TrailAt(f, o, n - 1, m);
      assert Trail(f, o, n)[..m + 1] == Trail(f, o, n - 1)[..m + 1];
    } else if n > 0 {
      TrailAt(f, o, n - 1, n - 1);
      assert Trail(f, o, n)[..n + 1] == Trail(f, o, n);
    } else {
      assert Trail(f, o, 0)[..1] == Trail(f, o, 0);
    }
  }

  /** Executing block b changes only the references of block b. */
  lemma {:induction false} ExecKeepsRefs(f: Func, o: Oracle, b: nat, k: nat, e: Env, log: seq<Event>, r: Ref)
    requires b < |f.blocks| && k <= |f.blocks[b].insts|
    requires r.Phi? || r.b != b || r.k >= k
    ensures Exec(f, o, b, k, e, log).Pt? ==> Exec(f, o, b, k, e, log).e.refs(r) == e.refs(r)
  {
    if k > 0 {
      ExecKeepsRefs(f, o, b, k - 1, e, log, r);
    }
  }

  /** Executing a block that never writes v keeps v. */
  lemma {:induction false} ExecKeepsVReg(f: Func, o: Oracle, b: nat, k: nat, e: Env, log: seq<Event>, v: nat)
    requires b < |f.blocks| && k <= |f.blocks[b].insts|
    requires forall j :: 0 <= j < k ==> v !in f.blocks[b].insts[j].rets
    ensures Exec(f, o, b, k, e, log).Pt? ==> Exec(f, o, b, k, e, log).e.vregs(v) == e.vregs(v)
  {
    if k > 0 {
      ExecKeepsVReg(f, o, b, k - 1, e, log, v);
    }
  }

  lemma {:induction false} ExecKeepsUndef(f: Func, o: Oracle, b: nat, k: nat, e: Env, log: seq<Event>)
    requires b < |f.blocks| && k <= |f.blocks[b].insts|
    ensures Exec(f, o, b, k, e, log).Pt? ==> Exec(f, o, b, k, e, log).e.undef == e.undef
  {
    if k > 0 {
      ExecKeepsUndef(f, o, b, k - 1, e, log);
    }
  }

  /** Undefined operands read one value throughout a run. */
  lemma {:induction false} UndefStays(f: Func, o: Oracle, n: nat)
    requires f.Valid() && Steps(f, o, n).At?
    ensures Steps(f, o, n).e.undef == o.undef
  {
    hide Exec;
    if n > 0 {
      StepTaken(f, o, n - 1);
      UndefStays(f, o, n - 1);
      var s := Steps(f, o, n - 1);
      ExecKeepsUndef(f, o, s.b, |f.blocks[s.b].insts|, s.e, s.log);
    }
  }

  /** Still going at step n means going at every earlier step. */
  lemma {:induction false} StillGoing(f: Func, o: Oracle, m: nat, n: nat)
    requires f.Valid() && m <= n && Steps(f, o, n).At?
    ensures Steps(f, o, m).At?
  {
    if m < n {
      StillGoing(f, o, m, n - 1);
    }
  }

  /** The point at the end of the block that a state is about to execute. */
  ghost function AtEnd(f: Func, o: Oracle, s: State): Point
    requires f.Valid()
  {
    if s.At? && s.b < |f.blocks| then Exec(f, o, s.b, |f.blocks[s.b].insts|, s.e, s.log) else Wrong
  }

  /** What taking a step from block to block means. */
  lemma StepTaken(f: Func, o: Oracle, n: nat)
    requires f.Valid() && Steps(f, o, n + 1).At?
    ensures var s := Steps(f, o, n); var t := Steps(f, o, n + 1); var x := AtEnd(f, o, s);
      && s.At? && s.b < |f.blocks| && t.b < |f.blocks| && Edge(f.g, s.b, t.b) && x.Pt?
      && t.log == x.log && t.e == EnterPhis(f.blocks[t.b].phis, s.b, t.b, x.e)
  {
    assert Steps(f, o, n + 1) == Step(f, o, Steps(f, o, n));
  }

  lemma RefStep(f: Func, o: Oracle, n: nat, r: Ref)
    requires f.Valid() && Steps(f, o, n + 1).At?
    requires Steps(f, o, n).At? ==> Steps(f, o, n).b != r.b
    requires r.Phi? ==> Steps(f, o, n + 1).b != r.b
    ensures Steps(f, o, n).At? && Steps(f, o, n + 1).e.refs(r) == Steps(f, o, n).e.refs(r)
  {
    hide Steps, Exec;
    StepTaken(f, o, n);
    var s := Steps(f, o, n);
    ExecKeepsRefs(f, o, s.b, |f.blocks[s.b].insts|, s.e, s.log, r);
  }

  lemma VRegStep(f: Func, o: Oracle, n: nat, v: nat)
    requires f.Valid() && Steps(f, o, n + 1).At?
    requires Steps(f, o, n).At? && Steps(f, o, n).b < |f.blocks| ==> NeverWrites(f.blocks[Steps(f, o, n).b].insts, v)
    ensures Steps(f, o, n).At? && Steps(f, o, n + 1).e.vregs(v) == Steps(f, o, n).e.vregs(v)
  {
    hide Steps, Exec;
    StepTaken(f, o, n);
    var s := Steps(f, o, n);
    ExecKeepsVReg(f, o, s.b, |f.blocks[s.b].insts|, s.e, s.log, v);
  }

  ghost predicate NeverWrites(insts: seq<Inst>, v: nat) {
    forall k :: 0 <= k < |insts| ==> v !in insts[k].rets
  }

  /** A reference keeps its value while its block is not executed. */
  lemma {:induction false} RefPersists(f: Func, o: Oracle, m: nat, n: nat, r: Ref)
    requires f.Valid() && Steps(f, o, n).At? && m <= n && Steps(f, o, m).At?
    requires forall j: nat :: m <= j < n && Steps(f, o, j).At? ==> Steps(f, o, j).b != r.b
    requires r.Phi? ==> Steps(f, o, n).b != r.b || m == n
    ensures Steps(f, o, n).e.refs(r) == Steps(f, o, m).e.refs(r)
  {
    hide Steps;
    if m < n {
      RefStep(f, o, n - 1, r);
      RefPersists(f, o, m, n - 1, r);
    }
  }

  /** A virtual register keeps its value while no executed block writes it. */
  lemma {:induction false} VRegPersists(f: Func, o: Oracle, m: nat, n: nat, v: nat)
    requires f.Valid() && Steps(f, o, n).At? && m <= n && Steps(f, o, m).At?
    requires forall j: nat :: m <= j < n && Steps(f, o, j).At? && Steps(f, o, j).b < |f.blocks| ==>
               NeverWrites(f.blocks[Steps(f, o, j).b].insts, v)
    ensures Steps(f, o, n).e.vregs(v) == Steps(f, o, m).e.vregs(v)
  {
    hide Steps, NeverWrites;
    if m < n {
      VRegStep(f, o, n - 1, v);
      VRegPersists(f, o, m, n - 1, v);
    }
  }

  /** Under every oracle both programs show the same run. */
  ghost predicate SameRuns(f: Func, g: Func)
    requires f.Valid() && g.Valid()
  {
    forall o: Oracle, n: nat :: Seen(Steps(g, o, n)) == Seen(Steps(f, o, n))
  }

  /** If f executes the first k instructions of its block after n steps, so does g, and both
      have the same history and the same operands at the last of them. */
  ghost predicate ReadsAlike(f: Func, g: Func, o: Oracle, n: nat, k: nat)
    requires f.Valid() && g.Valid()
  {
    var s, s' := Steps(f, o, n), Steps(g, o, n);
    s.At? && s.b < |f.blocks| && k <= |f.blocks[s.b].insts| && Exec(f, o, s.b, k, s.e, s.log).Pt? ==>
      && s'.At? && s'.b == s.b < |g.blocks| && k <= |g.blocks[s.b].insts|
      && AlikePoints(Exec(f, o, s.b, k, s.e, s.log), Exec(g, o, s.b, k, s'.e, s'.log))
  }

  predicate AlikePoints(p: Point, p': Point) {
    p.Pt? && p'.Pt? && p'.log == p.log && p'.last == p.last
  }

  /** Every instruction that f executes reads the same operand values in g. */
  ghost predicate SameReads(f: Func, g: Func)
    requires f.Valid() && g.Valid()
  {
    forall o: Oracle, n: nat, k: nat :: ReadsAlike(f, g, o, n, k)
  }

  /** As long as f does not get stuck, g shows the same run, and every instruction that f
      executes, moves and comparisons and those before it gets stuck included, reads the same
      operand values in g. */
  ghost predicate SameMeaning(f: Func, g: Func)
    requires f.Valid() && g.Valid()
  {
    && (forall o: Oracle, n: nat :: Steps(f, o, n) != Stuck ==> Seen(Steps(g, o, n)) == Seen(Steps(f, o, n)))
    && SameReads(f, g)
  }

  lemma SameMeaningRefl(f: Func)
    requires f.Valid()
    ensures SameMeaning(f, f)
  {
    forall o: Oracle, n: nat, k: nat
      ensures ReadsAlike(f, f, o, n, k)
    {
    }
  }

  lemma SameMeaningTrans(f: Func, g: Func, h: Func)
    requires f.Valid() && g.Valid() && h.Valid() && SameMeaning(f, g) && SameMeaning(g, h)
    ensures SameMeaning(f, h)
  {
    hide Steps, SameReads;
    SameReadsTrans(f, g, h);
  }

  lemma SameReadsRefl(f: Func)
    requires f.Valid()
    ensures SameReads(f, f)
  {
    SameMeaningRefl(f);
  }

  lemma SameReadsTrans(f: Func, g: Func, h: Func)
    requires f.Valid() && g.Valid() && h.Valid() && SameReads(f, g) && SameReads(g, h)
    ensures SameReads(f, h)
  {
    hide Steps, Exec;
    forall o: Oracle, n: nat, k: nat
      ensures ReadsAlike(f, h, o, n, k)
    {
      assert ReadsAlike(f, g, o, n, k) && ReadsAlike(g, h, o, n, k);
    }
  }

  lemma SameRunsRefl(f: Func)
    requires f.Valid()
    ensures SameRuns(f, f)
  {
  }

  lemma SameRunsTrans(f: Func, g: Func, h: Func)
    requires f.Valid() && g.Valid() && h.Valid() && SameRuns(f, g) && SameRuns(g, h)
    ensures SameRuns(f, h)
  {
    hide Steps;
    forall o: Oracle, n: nat
      ensures Seen(Steps(h, o, n)) == Seen(Steps(f, o, n))
    {
      assert Seen(Steps(h, o, n)) == Seen(Steps(g, o, n));
    }
  }

  // ---------------------------------------------------------------- what a rewrite keeps

  /** The same operation on the same constants; other operands may differ. */
  predicate SameOp(inst: Inst, inst': Inst) {
    && inst'.op == inst.op && inst'.rets == inst.rets && |inst'.args| == |inst.args|
    && forall j :: 0 <= j < |inst.args| && inst.args[j].Imm? ==> inst'.args[j] == inst.args[j]
  }

  /** Every instruction of a reachable block is still the same operation. */
  ghost predicate SameOps(f: Func, g: Func) {
    && g.g == f.g && |g.blocks| == |f.blocks|
    && (forall b: nat :: b < |f.blocks| && Reachable(f.g, b) ==> |g.blocks[b].insts| == |f.blocks[b].insts|)
    && forall b: nat, k: nat :: b < |f.blocks| && Reachable(f.g, b) && k < |f.blocks[b].insts| ==>
         SameOp(f.blocks[b].insts[k], g.blocks[b].insts[k])
  }

  lemma SameOpsRefl(f: Func)
    ensures SameOps(f, f)
  {
  }

  lemma SameOpsTrans(f: Func, g: Func, h: Func)
    requires SameOps(f, g) && SameOps(g, h)
    ensures SameOps(f, h)
  {
    hide Reachable;
    forall b: nat, k: nat | b < |f.blocks| && Reachable(f.g, b) && k < |f.blocks[b].insts|
      ensures SameOp(f.blocks[b].insts[k], h.blocks[b].insts[k])
    {
      assert SameOp(f.blocks[b].insts[k], g.blocks[b].insts[k]);
      assert SameOp(g.blocks[b].insts[k], h.blocks[b].insts[k]);
    }
  }

  /** Between two points of one block only the instructions in between write references. */
  lemma {:induction false} ExecKeepsEarlier(f: Func, o: Oracle, b: nat, k: nat, m: nat, e: Env, log: seq<Event>, r: Ref)
    requires b < |f.blocks| && k <= m <= |f.blocks[b].insts|
    requires r.Phi? || r.b != b || r.k < k || r.k >= m
    ensures Exec(f, o, b, m, e, log).Pt? ==> Exec(f, o, b, k, e, log).Pt?
    ensures Exec(f, o, b, m, e, log).Pt? ==> Exec(f, o, b, m, e, log).e.refs(r) == Exec(f, o, b, k, e, log).e.refs(r)
  {
    if k < m {
      ExecKeepsEarlier(f, o, b, k, m - 1, e, log, r);
    }
  }
}
