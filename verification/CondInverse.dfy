/** A function of four blocks in which the pass of passes/cond_simplify.cpp folds a floating-point
    comparison by the inverse of an earlier one, and when that is right. */
module CondInverse {
  import opened Cfg
  import opened Options
  import opened Ssa
  import opened SsaForm
  import opened DomEdges
  import opened CondSimplify
  import opened CondComplete
  import opened CondTraverse

  /** Block 2 is the ith successor of the entry, for i = 0 when flag is set and for i = 1 otherwise. */
  function TestGraph(flag: bool): (g: Graph)
    ensures g.Valid()
  {
    Graph([if flag then [2, 1] else [1, 2], [], [1, 3], []])
  }

  /** Block 0 compares its arguments with cc and goes to block 2 when the outcome is flag; block 2
      compares them with the inverse code and jumps on the outcome. */
  function InverseTest(cc: Cond, flag: bool): (f: Func)
    ensures f.Valid()
  {
    var args := [Use(Res(0, 0, 0)), Use(Res(0, 1, 0))];
    Func(TestGraph(flag), [
      Block(map[], [Inst(Arg(0, true), [], [0]), Inst(Arg(1, true), [], [1]), Inst(Cmp(cc, true), args, [2]),
                    Inst(JumpCond, [Use(Res(0, 2, 0))], [])]),
      Block(map[], [Inst(Other, [], [])]),
      Block(map[], [Inst(Cmp(GetInverseCond(cc), true), args, [3]), Inst(JumpCond, [Use(Res(2, 0, 0))], [])]),
      Block(map[], [Inst(Other, [], [])])])
  }

  /** Only the arguments are floating-point. */
  function TestTypes(): Ref -> bool {
    (r: Ref) => r.Res? && r.b == 0 && r.k < 2
  }

  function TestCond(flag: bool): Condition { JumpCondition(Use(Res(0, 2, 0)), flag) }

  lemma TestSimplifiable(cc: Cond, flag: bool)
    ensures Simplifiable(InverseTest(cc, flag), TestTypes())
  {
    hide InverseTest, BlockOk, CompleteBlock, Shaped, Reachable;
    var f := InverseTest(cc, flag);
    TestEntry(cc, flag);
    forall b: nat | b < |f.blocks|
      ensures BlockOk(f, b) && CompleteBlock(f, b) && Terminated(f.blocks[b].insts)
      ensures forall k: nat :: k < |f.blocks[b].insts| ==> Shaped(f.blocks[b].insts[k], b, k, TestTypes())
    {
      TestBlock(cc, flag, b);
    }
  }

  lemma TestEntry(cc: Cond, flag: bool)
    ensures var f := InverseTest(cc, flag); |f.blocks| == 4 && f.blocks[0].phis == map[] && EntryHasNoPreds(f.g)
  {
  }

  lemma TestBlock(cc: Cond, flag: bool, b: nat)
    requires b < 4
    ensures var f := InverseTest(cc, flag);
      && BlockOk(f, b) && CompleteBlock(f, b) && Terminated(f.blocks[b].insts)
      && forall k: nat :: k < |f.blocks[b].insts| ==> Shaped(f.blocks[b].insts[k], b, k, TestTypes())
  {
    hide OperandOk, CompleteArg, Shaped;
    var f := InverseTest(cc, flag);
    forall k: nat | k < |f.blocks[b].insts|
      ensures Shaped(f.blocks[b].insts[k], b, k, TestTypes())
    {
      TestShaped(cc, flag, b, k);
    }
    forall k: nat, j: nat | k < |f.blocks[b].insts| && j < |f.blocks[b].insts[k].args|
      ensures CompleteArg(f, f.blocks[b].insts[k].args[j]) && OperandOk(f, f.blocks[b].insts[k].args[j], b, k)
    {
      TestArgs(cc, flag, b, k, j);
    }
  }

  lemma TestShaped(cc: Cond, flag: bool, b: nat, k: nat)
    requires b < 4 && k < |InverseTest(cc, flag).blocks[b].insts|
    ensures Shaped(InverseTest(cc, flag).blocks[b].insts[k], b, k, TestTypes())
  {
  }

  /** Instructions read only results of block 0 that come earlier, or of their own block. */
  lemma TestArgs(cc: Cond, flag: bool, b: nat, k: nat, j: nat)
    requires b < 4 && k < |InverseTest(cc, flag).blocks[b].insts|
    requires j < |InverseTest(cc, flag).blocks[b].insts[k].args|
    ensures var f := InverseTest(cc, flag);
      CompleteArg(f, f.blocks[b].insts[k].args[j]) && OperandOk(f, f.blocks[b].insts[k].args[j], b, k)
  {
    hide Dom;
    EntryReachable(InverseTest(cc, flag).g);
  }

  /** Every run to block 2 takes the edge from block 0. */
  lemma TestCondAt(cc: Cond, flag: bool)
    ensures CondAt(InverseTest(cc, flag), 2, TestCond(flag)) && Reachable(InverseTest(cc, flag).g, 2)
  {
    var f := InverseTest(cc, flag);
    var g := f.g;
    var i: nat := if flag then 0 else 1;
    EntryReachable(g);
    EdgeReachable(g, 0, 2);
    assert g.succs[0][1..] == [g.succs[0][1]] && [g.succs[0][1]][1..] == [];
    assert Count(g.succs[0], 2) == 1;
    assert Decides(f, 0, i, TestCond(flag));
    forall p | RunTo(g, p, 2)
      ensures exists j :: Takes(p, j, 0, 2)
    {
      assert Edge(g, p[|p| - 2], p[|p| - 1]);
      assert Takes(p, |p| - 2, 0, 2);
    }
    DomReflexive(g, 2);
  }

  // ---------------------------------------------------------------- its runs

  /** What a run shows when the first comparison yields h and block 2 jumps on v. */
  function TestRun(flag: bool, h: bool, v: bool, n: nat): View {
    var log := [Event(0, 3, JumpCond, [Bool(h)])];
    if n == 0 then AtBlock(0, [])
    else if n == 1 then AtBlock(if h == flag then 2 else 1, log)
    else if h != flag then Exited(log + [Event(1, 0, Other, [])])
    else
      var log' := log + [Event(2, 1, JumpCond, [Bool(v)])];
      var b := if v then 1 else 3;
      if n == 2 then AtBlock(b, log') else Exited(log' + [Event(b, 0, Other, [])])
  }

  /** The outcome of the first comparison under an oracle. */
  predicate Outcome(cc: Cond, o: Oracle) {
    Holds(cc, RelOf(cc, true, o.param(0), o.param(1), o))
  }

  /** The test with another instruction at the start of block 2. */
  function WithSecond(cc: Cond, flag: bool, inst: Inst): (g: Func)
    ensures g.Valid()
  {
    var f := InverseTest(cc, flag);
    f.(blocks := f.blocks[2 := f.blocks[2].(insts := [inst, f.blocks[2].insts[1]])])
  }

  /** The instruction computes v in block 2. */
  predicate Computes(inst: Inst, v: bool, o: Oracle) {
    && inst.rets == [3]
    && match inst.op
       case Mov(_) => inst.args == [Imm(Bool(v))]
       case Cmp(cc, fp) => fp && inst.args == [Use(Res(0, 0, 0)), Use(Res(0, 1, 0))] && v == Outcome(cc, o)
       case _ => false
  }

  lemma ExecNext(g: Func, o: Oracle, b: nat, k: nat, e: Env, log: seq<Event>)
    requires b < |g.blocks| && k < |g.blocks[b].insts| && Exec(g, o, b, k, e, log).Pt?
    ensures var p := Exec(g, o, b, k, e, log);
      Exec(g, o, b, k + 1, e, log) == ExecInst(b, k, g.blocks[b].insts[k], o, p.e, p.log)
  {
  }

  /** A pure instruction leaves its result and nothing else. */
  lemma OneResult(b: nat, k: nat, inst: Inst, o: Oracle, e: Env, log: seq<Event>)
    requires Pure(inst.op) && |inst.rets| == 1 && Ssa.Defined(inst.args, e)
    ensures var p := ExecInst(b, k, inst, o, e, log);
      && p.Pt? && p.log == log
      && p.e.refs(Res(b, k, 0)) == Some(Result(inst.op, Values(inst.args, e), o, log, 0))
      && forall r :: r != Res(b, k, 0) ==> p.e.refs(r) == e.refs(r)
  {
  }

  lemma BlockZero(cc: Cond, flag: bool, inst: Inst, o: Oracle)
    ensures var g := WithSecond(cc, flag, inst);
      var s := Steps(g, o, 1);
      && Seen(s) == TestRun(flag, Outcome(cc, o), false, 1) && s.At?
      && s.e.refs(Res(0, 0, 0)) == Some(o.param(0)) && s.e.refs(Res(0, 1, 0)) == Some(o.param(1))
  {
    hide Outcome, RelOf, Holds, Write, Exec;
    var g := WithSecond(cc, flag, inst);
    var insts := g.blocks[0].insts;
    var e := StartEnv(o);
    ExecStart(g, o, 0, e, []);
    ExecNext(g, o, 0, 0, e, []);
    OneResult(0, 0, insts[0], o, e, []);
    var e1 := Exec(g, o, 0, 1, e, []).e;
    ExecNext(g, o, 0, 1, e, []);
    OneResult(0, 1, insts[1], o, e1, []);
    var e2 := Exec(g, o, 0, 2, e, []).e;
    ExecNext(g, o, 0, 2, e, []);
    assert Values(insts[2].args, e2) == [o.param(0), o.param(1)];
    OneResult(0, 2, insts[2], o, e2, []);
    assert Result(insts[2].op, [o.param(0), o.param(1)], o, [], 0) == Bool(Outcome(cc, o)) by {
      ShowOutcome(cc, o);
    }
    var e3 := Exec(g, o, 0, 3, e, []).e;
    ExecNext(g, o, 0, 3, e, []);
    assert Values(insts[3].args, e3) == [Bool(Outcome(cc, o))];
    NoResult(0, 3, insts[3], o, e3, []);
    StepsNext(g, o, 0);
  }

  lemma ExecStart(g: Func, o: Oracle, b: nat, e: Env, log: seq<Event>)
    requires b < |g.blocks|
    ensures Exec(g, o, b, 0, e, log) == Pt(e, log, [])
  {
  }

  lemma ShowOutcome(cc: Cond, o: Oracle)
    ensures Result(Cmp(cc, true), [o.param(0), o.param(1)], o, [], 0) == Bool(Outcome(cc, o))
  {
  }

  lemma NoResult(b: nat, k: nat, inst: Inst, o: Oracle, e: Env, log: seq<Event>)
    requires !Pure(inst.op) && inst.rets == [] && Ssa.Defined(inst.args, e)
    ensures var p := ExecInst(b, k, inst, o, e, log);
      && p.Pt? && p.log == log + [Event(b, k, inst.op, Values(inst.args, e))] && p.last == Values(inst.args, e)
      && forall r :: p.e.refs(r) == e.refs(r)
  {
  }

  lemma BlockTwo(cc: Cond, flag: bool, inst: Inst, v: bool, o: Oracle)
    requires Computes(inst, v, o) && Outcome(cc, o) == flag
    ensures Seen(Steps(WithSecond(cc, flag, inst), o, 2)) == TestRun(flag, flag, v, 2)
    ensures Steps(WithSecond(cc, flag, inst), o, 2).At?
  {
    hide Outcome, RelOf, Holds, Write, Exec, Steps;
    var g := WithSecond(cc, flag, inst);
    BlockZero(cc, flag, inst, o);
    var s := Steps(g, o, 1);
    var insts := g.blocks[2].insts;
    ExecStart(g, o, 2, s.e, s.log);
    ExecNext(g, o, 2, 0, s.e, s.log);
    if inst.op.Cmp? {
      assert Values(inst.args, s.e) == [o.param(0), o.param(1)];
      ShowOutcome(inst.op.cc, o);
    } else {
      assert Values(inst.args, s.e) == [Bool(v)];
    }
    OneResult(2, 0, inst, o, s.e, s.log);
    PureResult(inst.op, Values(inst.args, s.e), o, s.log);
    var e1 := Exec(g, o, 2, 1, s.e, s.log).e;
    ExecNext(g, o, 2, 1, s.e, s.log);
    assert Values(insts[1].args, e1) == [Bool(v)];
    NoResult(2, 1, insts[1], o, e1, s.log);
    StepsNext(g, o, 1);
  }

  /** Blocks 1 and 3 end the run. */
  lemma LastBlock(cc: Cond, flag: bool, inst: Inst, o: Oracle, n: nat)
    requires var s := Steps(WithSecond(cc, flag, inst), o, n); s.At? && s.b in {1, 3}
    ensures var s := Steps(WithSecond(cc, flag, inst), o, n);
      Steps(WithSecond(cc, flag, inst), o, n + 1) == Halted(s.log + [Event(s.b, 0, Other, [])])
  {
    hide Write, Exec, Steps;
    var g := WithSecond(cc, flag, inst);
    var s := Steps(g, o, n);
    ExecStart(g, o, s.b, s.e, s.log);
    ExecNext(g, o, s.b, 0, s.e, s.log);
    assert Values([], s.e) == [];
    NoResult(s.b, 0, g.blocks[s.b].insts[0], o, s.e, s.log);
    StepsNext(g, o, n);
  }

  lemma {:induction false} TestRuns(cc: Cond, flag: bool, inst: Inst, v: bool, o: Oracle, n: nat)
    requires Computes(inst, v, o)
    ensures Seen(Steps(WithSecond(cc, flag, inst), o, n)) == TestRun(flag, Outcome(cc, o), v, n)
  {
    hide Outcome, Steps, Computes, WithSecond;
    var g := WithSecond(cc, flag, inst);
    if n == 0 {
      StepsNext(g, o, 0);
    } else {
      TestRuns(cc, flag, inst, v, o, n - 1);
      BlockZero(cc, flag, inst, o);
      if n == 2 && Outcome(cc, o) == flag {
        BlockTwo(cc, flag, inst, v, o);
      } else if Steps(g, o, n - 1).At? && n > 1 {
        LastBlock(cc, flag, inst, o, n - 1);
      } else {
        StepsNext(g, o, n - 1);
      }
    }
  }

  // ---------------------------------------------------------------- when the fold is right

  lemma TestIsSecond(cc: Cond, flag: bool)
    ensures |InverseTest(cc, flag).blocks| == 4 && |InverseTest(cc, flag).blocks[2].insts| == 2
    ensures var f := InverseTest(cc, flag); var g := Rewritten(f, 2, 0, !flag);
      && f == WithSecond(cc, flag, f.blocks[2].insts[0]) && g == WithSecond(cc, flag, g.blocks[2].insts[0])
      && |g.blocks| == 4 && |g.blocks[2].insts| == 2
      && f.blocks[2].insts[0] == Inst(Cmp(GetInverseCond(cc), true), [Use(Res(0, 0, 0)), Use(Res(0, 1, 0))], [3])
      && g.blocks[2].insts[0] == Inst(Mov(false), [Imm(Bool(!flag))], [3])
  {
    var f := InverseTest(cc, flag);
    var g := Rewritten(f, 2, 0, !flag);
    assert f.blocks[2].insts == WithSecond(cc, flag, f.blocks[2].insts[0]).blocks[2].insts;
    assert g.blocks[2].insts == WithSecond(cc, flag, g.blocks[2].insts[0]).blocks[2].insts;
    assert f.blocks == WithSecond(cc, flag, f.blocks[2].insts[0]).blocks;
    assert g.blocks == WithSecond(cc, flag, g.blocks[2].insts[0]).blocks;
  }

  lemma TestRedundant(cc: Cond, flag: bool)
    ensures var f := InverseTest(cc, flag); IsRedundant(f, f.blocks[2].insts[0], TestCond(flag)) == Some(!flag)
  {
    hide GetInverseCond;
    var f := InverseTest(cc, flag);
    assert f.blocks[0].insts[2].op == Cmp(cc, true) && InstAtRef(f, Use(Res(0, 2, 0))) == Some(f.blocks[0].insts[2]);
    NotOwnInverse(cc);
  }

  lemma SecondNegates(cc: Cond, flag: bool, o: Oracle)
    requires Exact(cc) || Holds(cc, Unordered) != flag
    ensures Outcome(cc, o) == flag ==> Outcome(GetInverseCond(cc), o) == !flag
  {
    hide Holds, Exact;
    InverseNegates(cc, true, o.param(0), o.param(1), o);
  }

  lemma SecondAgrees(cc: Cond, flag: bool, o: Oracle)
    requires !Exact(cc) && Holds(cc, Unordered) == flag && o.real_(o.param(0)) == None
    ensures Outcome(cc, o) == flag && Outcome(GetInverseCond(cc), o) == flag
  {
    hide Holds, Exact;
    InverseNegates(cc, true, o.param(0), o.param(1), o);
  }

  lemma SameTestRun(flag: bool, h: bool, v: bool, n: nat)
    requires h == flag ==> v == !flag
    ensures TestRun(flag, h, v, n) == TestRun(flag, h, !flag, n)
  {
  }

  lemma OtherTestRun(flag: bool)
    ensures TestRun(flag, flag, flag, 2) != TestRun(flag, flag, !flag, 2)
  {
  }

  // ---------------------------------------------------------------- what the pass makes of it

  /** The test and the test after the fold differ in block 2 only. */
  predicate IsTest(cc: Cond, flag: bool, f: Func) {
    f == InverseTest(cc, flag) || f == WithSecond(cc, flag, Inst(Mov(false), [Imm(Bool(!flag))], [3]))
  }

  lemma TestShape(cc: Cond, flag: bool, f: Func)
    requires IsTest(cc, flag, f)
    ensures f.g == TestGraph(flag) && |f.blocks| == 4 && f.Valid()
    ensures |f.blocks[0].insts| == 4 && f.blocks[0].insts[3] == Inst(JumpCond, [Use(Res(0, 2, 0))], [])
    ensures forall k :: 0 <= k < 4 && IsCmp(f.blocks[0].insts[k]) ==> k == 2
    ensures !IsCmp(f.blocks[1].insts[0]) && !IsCmp(f.blocks[3].insts[0])
    ensures |f.blocks[1].insts| == |f.blocks[3].insts| == 1 && |f.blocks[2].insts| == 2
    ensures !IsCmp(f.blocks[2].insts[1]) && (IsCmp(f.blocks[2].insts[0]) ==> f == InverseTest(cc, flag))
  {
  }

  /** No condition holds in the entry, and the only one in block 2 is that of the edge from the
      entry. */
  lemma OnlyTestCond(cc: Cond, flag: bool, f: Func, b: nat, cond: Condition)
    requires IsTest(cc, flag, f) && f.Valid() && b in {0, 2} && CondAt(f, b, cond)
    ensures b == 2 && cond == TestCond(flag)
  {
    hide IsTest, Dom, Reachable, EdgeDom, Func.Valid;
    TestShape(cc, flag, f);
    var s: nat, i: nat :| Decides(f, s, i, cond) && EdgeDom(f.g, s, f.g.succs[s][i], f.g.succs[s][i]) &&
      Dom(f.g, f.g.succs[s][i], b);
    var e := f.g.succs[s][i];
    if b == 0 {
      OnlyEntryDominatesEntry(f.g, e);
      assert false;
    }
    TestDom(flag, e);
  }

  lemma TestDom(flag: bool, e: nat)
    requires Dom(TestGraph(flag), e, 2)
    ensures e in {0, 2}
  {
    assert RunTo(TestGraph(flag), [0, 2], 2);
    assert e in [0, 2];
  }

  lemma FoldedTest(cc: Cond, flag: bool)
    requires |InverseTest(cc, flag).blocks| == 4 && |InverseTest(cc, flag).blocks[2].insts| == 2
    ensures var g := Rewritten(InverseTest(cc, flag), 2, 0, !flag); IsTest(cc, flag, g) && g != InverseTest(cc, flag)
  {
    hide WithSecond, InverseTest, Rewritten;
    TestIsSecond(cc, flag);
  }

  lemma TestFold(cc: Cond, flag: bool, f: Func, g: Func)
    requires IsTest(cc, flag, f) && FoldStep(f, g)
    ensures f == InverseTest(cc, flag) && IsTest(cc, flag, g) && g != f
  {
    hide CondAt, IsRedundant, WithSecond, InverseTest, Rewritten, Decided, Reachable, IsTest;
    TestIsSecond(cc, flag);
    TestShape(cc, flag, f);
    var b: nat, k: nat, v: bool :| Folds(f, b, k, v, g);
    DecidedExact(f, b, k, v);
    var cond :| CondAt(f, b, cond) && IsRedundant(f, f.blocks[b].insts[k], cond) == Some(v);
    OnlyCmpRedundant(f, f.blocks[b].insts[k], cond);
    OnlyTestCond(cc, flag, f, b, cond);
    TestRedundant(cc, flag);
    FoldedTest(cc, flag);
  }

  /** The pass folds the second comparison and nothing else. */
  lemma PassFolds(cc: Cond, flag: bool, h: Func)
    requires Folded(InverseTest(cc, flag), h) && h.Valid() && |h.blocks| == 4
    requires forall v: bool :: !Decided(h, 2, 0, v)
    ensures IsTest(cc, flag, h) && h != InverseTest(cc, flag)
  {
    hide FoldStep, InverseTest, WithSecond, IsTest, CondAt, IsRedundant;
    var f := InverseTest(cc, flag);
    var trace :| FoldSteps(trace) && trace[0] == f && trace[|trace| - 1] == h;
    TestCondAt(cc, flag);
    TestRedundant(cc, flag);
    if |trace| == 1 {
      DecidedExact(f, 2, 0, !flag);
      assert false;
    }
    assert IsTest(cc, flag, f) by {
      TestIsItself(cc, flag);
    }
    TestFold(cc, flag, f, trace[1]);
    if |trace| > 2 {
      TestFold(cc, flag, trace[1], trace[2]);
      assert false;
    }
  }

  lemma TestIsItself(cc: Cond, flag: bool)
    ensures IsTest(cc, flag, InverseTest(cc, flag))
  {
  }

  /** Whatever the pass returns, it changes no run of this function exactly when the code of the
      first comparison is exact, or when operands that are not ordered do not get to block 2. */
  lemma InverseFoldExact(cc: Cond, flag: bool, h: Func)
    requires Folded(InverseTest(cc, flag), h) && h.Valid() && |h.blocks| == 4
    requires forall v: bool :: !Decided(h, 2, 0, v)
    ensures Simplifiable(InverseTest(cc, flag), TestTypes())
    ensures SameRuns(InverseTest(cc, flag), h) <==> Exact(cc) || Holds(cc, Unordered) != flag
  {
    hide Simplifiable, Folded, Decided, Steps, RelOf, Holds, TestRun, InverseTest, WithSecond, Exact, Outcome;
    var f := InverseTest(cc, flag);
    TestSimplifiable(cc, flag);
    PassFolds(cc, flag, h);
    TestIsSecond(cc, flag);
    var cmp, mov := f.blocks[2].insts[0], Inst(Mov(false), [Imm(Bool(!flag))], [3]);
    if Exact(cc) || Holds(cc, Unordered) != flag {
      forall o: Oracle, n: nat
        ensures Seen(Steps(h, o, n)) == Seen(Steps(f, o, n))
      {
        SecondNegates(cc, flag, o);
        TestRuns(cc, flag, cmp, Outcome(GetInverseCond(cc), o), o, n);
        TestRuns(cc, flag, mov, !flag, o, n);
        SameTestRun(flag, Outcome(cc, o), Outcome(GetInverseCond(cc), o), n);
      }
    } else {
      var o := Oracle((_, _) => 0, _ => 0, _ => 0, _ => None, 0);
      SecondAgrees(cc, flag, o);
      TestRuns(cc, flag, cmp, flag, o, 2);
      TestRuns(cc, flag, mov, !flag, o, 2);
      OtherTestRun(flag);
      assert Seen(Steps(h, o, 2)) != Seen(Steps(f, o, 2));
    }
  }
}
