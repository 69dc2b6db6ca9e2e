/** SSA construction preserves meaning (core/parser_phi.cpp): the renamed program reads, at
    every operand of every run, the value the virtual register held in the source program. */
module PhiMeaning {
  import opened Cfg
  import opened Options
  import opened Ssa
  import opened Liveness
  import opened Placement

  /** A source program as the parser hands it over: no PHIs and no direct references. */
  ghost predicate IsSource(f: Func) {
    && f.Valid()
    && EntryHasNoPreds(f.g)
    && (forall b :: 0 <= b < |f.blocks| ==> f.blocks[b].phis == map[])
    && forall b, k, j :: 0 <= b < |f.blocks| && 0 <= k < |f.blocks[b].insts| && 0 <= j < |f.blocks[b].insts[k].args|
         ==> f.blocks[b].insts[k].args[j].VReg? || f.blocks[b].insts[k].args[j].Imm?
  }

  function AsOperand(r: Option<Ref>): Operand {
    match r
    case Some(ref) => Use(ref)
    case None => Undef
  }

  ghost predicate RenamedArg(f: Func, t: DomTree, phis: seq<set<nat>>, b: nat, k: nat, a: Operand, a': Operand)
    requires f.Valid() && TreeOf(f.g, t) && |phis| == |f.blocks| && b < |f.blocks| && k <= |f.blocks[b].insts|
  {
    if a.VReg? then TopAt(f, t, phis, b, k, a.v).Some? && a' == Use(TopAt(f, t, phis, b, k, a.v).value)
    else a' == a
  }

  /** The first n operands of instruction k have been renamed. */
  ghost predicate RenamedInst(f: Func, t: DomTree, phis: seq<set<nat>>, b: nat, k: nat, inst': Inst, n: nat)
    requires f.Valid() && TreeOf(f.g, t) && |phis| == |f.blocks| && b < |f.blocks| && k < |f.blocks[b].insts|
  {
    var inst := f.blocks[b].insts[k];
    && inst' == inst.(args := inst'.args)
    && n <= |inst'.args| == |inst.args|
    && forall j :: 0 <= j < n ==> RenamedArg(f, t, phis, b, k, inst.args[j], inst'.args[j])
  }

  ghost predicate RenamedBlock(f: Func, t: DomTree, phis: seq<set<nat>>, b: nat, insts: seq<Inst>, n: nat)
    requires f.Valid() && TreeOf(f.g, t) && |phis| == |f.blocks| && b < |f.blocks|
  {
    && n <= |insts| == |f.blocks[b].insts|
    && forall k :: 0 <= k < n ==> RenamedInst(f, t, phis, b, k, insts[k], |insts[k].args|)
  }

  /** The PHIs of b are those placed there, and read what the stack held at the end of each predecessor. */
  ghost predicate FilledPhis(f: Func, t: DomTree, phis: seq<set<nat>>, b: nat, filled: map<nat, map<nat, Operand>>)
    requires f.Valid() && TreeOf(f.g, t) && |phis| == |f.blocks| && b < |f.blocks|
  {
    && filled.Keys == phis[b]
    && forall v: nat, p: nat :: v in phis[b] && p < |f.blocks| && Reachable(f.g, p) && Edge(f.g, p, b) ==>
         p in filled[v] && filled[v][p] == AsOperand(Out(f, t, phis, p, v))
  }

  ghost predicate IsRenamed(f: Func, t: DomTree, phis: seq<set<nat>>, g: Func)
    requires f.Valid() && TreeOf(f.g, t)
  {
    && g.g == f.g && |g.blocks| == |f.blocks| == |phis|
    && forall b: nat :: b < |f.blocks| && Reachable(f.g, b) ==>
         && RenamedBlock(f, t, phis, b, g.blocks[b].insts, |f.blocks[b].insts|)
         && FilledPhis(f, t, phis, b, g.blocks[b].phis)
  }

  /** A finished SSA construction. */
  datatype Ctx = Ctx(f: Func, t: DomTree, live: seq<set<nat>>, phis: seq<set<nat>>, g: Func)
  {
    ghost predicate Shape() {
      && f.Valid() && g.Valid() && TreeOf(f.g, t)
      && g.g == f.g && |phis| == |f.blocks|
    }

    ghost predicate Done()
      requires Shape()
    {
      && IsSource(f)
      && LiveComplete(f, live)
      && Closed(f, t, live, phis)
      && IsRenamed(f, t, phis, g)
    }

    ghost predicate Ok() {
      Shape() && Done()
    }
  }

  // ---------------------------------------------------------------- stack contents

  /** r is a definition of v or a PHI for v. */
  ghost predicate RefOf(f: Func, phis: seq<set<nat>>, r: Ref, v: nat)
    requires f.Valid() && |phis| == |f.blocks|
  {
    && r.b < |f.blocks|
    && DefOrPhi(f, phis, r.b, v)
    && (r.Phi? ==> r.id == v && v in phis[r.b])
    && (r.Res? ==>
          && r.k < |f.blocks[r.b].insts| && r.i < |f.blocks[r.b].insts[r.k].rets|
          && f.blocks[r.b].insts[r.k].rets[r.i] == v)
  }

  lemma {:induction false} TopSound(f: Func, t: DomTree, phis: seq<set<nat>>, b: nat, k: nat, v: nat)
    requires f.Valid() && TreeOf(f.g, t) && |phis| == |f.blocks| && b < |f.blocks| && k <= |f.blocks[b].insts|
    ensures TopAt(f, t, phis, b, k, v).Some? ==> RefOf(f, phis, TopAt(f, t, phis, b, k, v).value, v)
    decreases Dominators(f.g, b), k
  {
    if k > 0 {
      var rets := f.blocks[b].insts[k - 1].rets;
      if v in rets {
        assert !Passes(f.blocks[b].insts, 0, v);
      } else {
        TopSound(f, t, phis, b, k - 1, v);
      }
    } else {
      TopAtEntry(f, t, phis, b, v);
      if v !in phis[b] && b in t.idom {
        DominatorsShrink(f.g, t.idom[b], b);
        TopSound(f, t, phis, t.idom[b], |f.blocks[t.idom[b]].insts|, v);
      }
    }
  }

  // ---------------------------------------------------------------- inside a block

  ghost predicate VRegsAgree(e: Env, e': Env) {
    forall v: nat :: e.vregs(v) == e'.vregs(v)
  }

  /** Every live, defined register equals the definition on top of its stack. */
  ghost predicate RefsAgree(c: Ctx, b: nat, k: nat, e: Env, e': Env)
    requires c.Ok() && b < |c.f.blocks| && k <= |c.f.blocks[b].insts|
  {
    forall v: nat :: LiveAt(c.f, b, k, v) && e.vregs(v).Some? ==> TopAgrees(c, b, k, v, e, e')
  }

  ghost predicate TopAgrees(c: Ctx, b: nat, k: nat, v: nat, e: Env, e': Env)
    requires c.Ok() && b < |c.f.blocks| && k <= |c.f.blocks[b].insts|
  {
    var r := TopAt(c.f, c.t, c.phis, b, k, v);
    r.Some? && e'.refs(r.value) == e.vregs(v)
  }

  /** An instruction reads the same operand values in both programs. */
  lemma SameOperands(c: Ctx, b: nat, k: nat, e: Env, e': Env)
    requires c.Ok() && b < |c.f.blocks| && Reachable(c.f.g, b) && k < |c.f.blocks[b].insts|
    requires RefsAgree(c, b, k, e, e')
    requires Defined(c.f.blocks[b].insts[k].args, e)
    ensures k < |c.g.blocks[b].insts|
    ensures Defined(c.g.blocks[b].insts[k].args, e')
    ensures Values(c.g.blocks[b].insts[k].args, e') == Values(c.f.blocks[b].insts[k].args, e)
  {
    var inst, inst' := c.f.blocks[b].insts[k], c.g.blocks[b].insts[k];
    assert RenamedInst(c.f, c.t, c.phis, b, k, inst', |inst'.args|);
    forall j | 0 <= j < |inst.args|
      ensures Read(inst'.args[j], e') == Read(inst.args[j], e)
    {
      var a := inst.args[j];
      assert RenamedArg(c.f, c.t, c.phis, b, k, a, inst'.args[j]);
      assert Read(a, e).Some?;
      if a.VReg? {
        assert ReadFrom(c.f.blocks[b].insts, k, k, a.v);
        LiveHere(c.f, b, k, a.v);
        assert TopAgrees(c, b, k, a.v, e, e');
      }
    }
  }

  lemma StaysLive(f: Func, b: nat, k: nat, v: nat)
    requires f.Valid() && b < |f.blocks| && k < |f.blocks[b].insts|
    requires LiveAt(f, b, k + 1, v) && v !in f.blocks[b].insts[k].rets
    ensures LiveAt(f, b, k, v)
  {
    LiveUnfold(f, b, k + 1, v);
    ExposedStep(f.blocks[b].insts, k, v);
    if Exposed(f.blocks[b].insts, k + 1, v) {
      LiveHere(f, b, k, v);
    } else {
      LiveThrough(f, b, k, v);
    }
  }

  lemma WriteAgrees(c: Ctx, b: nat, k: nat, e: Env, e': Env, vals: seq<Val>, o: Oracle, log: seq<Event>)
    requires c.Ok() && b < |c.f.blocks| && Reachable(c.f.g, b) && k < |c.f.blocks[b].insts|
    requires RefsAgree(c, b, k, e, e') && VRegsAgree(e, e')
    ensures k < |c.g.blocks[b].insts|
    ensures var inst := c.f.blocks[b].insts[k]; var inst' := c.g.blocks[b].insts[k];
      && VRegsAgree(Write(e, b, k, inst, vals, o, log), Write(e', b, k, inst', vals, o, log))
      && RefsAgree(c, b, k + 1, Write(e, b, k, inst, vals, o, log), Write(e', b, k, inst', vals, o, log))
  {
    var inst, inst' := c.f.blocks[b].insts[k], c.g.blocks[b].insts[k];
    assert RenamedInst(c.f, c.t, c.phis, b, k, inst', |inst'.args|);
    var e1, e1' := Write(e, b, k, inst, vals, o, log), Write(e', b, k, inst', vals, o, log);
    forall v: nat | LiveAt(c.f, b, k + 1, v) && e1.vregs(v).Some?
      ensures TopAgrees(c, b, k + 1, v, e1, e1')
    {
      if v !in inst.rets {
        StaysLive(c.f, b, k, v);
        assert TopAgrees(c, b, k, v, e, e');
        TopSound(c.f, c.t, c.phis, b, k, v);
      }
    }
  }

  /** Both programs execute a block in step. */
  lemma {:induction false} BlockAgrees(c: Ctx, o: Oracle, b: nat, k: nat, e: Env, e': Env, log: seq<Event>)
    requires c.Ok() && b < |c.f.blocks| && Reachable(c.f.g, b) && k <= |c.f.blocks[b].insts|
    requires RefsAgree(c, b, 0, e, e') && VRegsAgree(e, e')
    requires Exec(c.f, o, b, k, e, log).Pt?
    ensures |c.g.blocks[b].insts| == |c.f.blocks[b].insts|
    ensures var p := Exec(c.f, o, b, k, e, log); var p' := Exec(c.g, o, b, k, e', log);
      && p'.Pt? && p'.log == p.log && p'.last == p.last
      && VRegsAgree(p.e, p'.e) && RefsAgree(c, b, k, p.e, p'.e)
  {
    hide Ctx.Done, TreeOf, RefsAgree, VRegsAgree;
    SameSize(c, b);
    if k > 0 {
      BlockAgrees(c, o, b, k - 1, e, e', log);
      var p, p' := Exec(c.f, o, b, k - 1, e, log), Exec(c.g, o, b, k - 1, e', log);
      var inst := c.f.blocks[b].insts[k - 1];
      SameKind(c, b, k - 1);
      SameOperands(c, b, k - 1, p.e, p'.e);
      var vals := Values(inst.args, p.e);
      var log' := if Pure(inst.op) then p.log else p.log + [Event(b, k - 1, inst.op, vals)];
      WriteAgrees(c, b, k - 1, p.e, p'.e, vals, o, log');
    }
  }

  lemma SameSize(c: Ctx, b: nat)
    requires c.Ok() && b < |c.f.blocks| && Reachable(c.f.g, b)
    ensures |c.g.blocks[b].insts| == |c.f.blocks[b].insts|
  {
  }

  lemma SameKind(c: Ctx, b: nat, k: nat)
    requires c.Ok() && b < |c.f.blocks| && Reachable(c.f.g, b) && k < |c.f.blocks[b].insts|
    ensures k < |c.g.blocks[b].insts| && c.g.blocks[b].insts[k].op == c.f.blocks[b].insts[k].op
  {
    assert RenamedInst(c.f, c.t, c.phis, b, k, c.g.blocks[b].insts[k], |c.g.blocks[b].insts[k].args|);
  }

  // ---------------------------------------------------------------- across edges

  ghost predicate StatesAgree(c: Ctx, s: State, s': State)
    requires c.Ok()
  {
    match s
    case At(b, e, log) =>
      && b < |c.f.blocks| && Reachable(c.f.g, b)
      && s'.At? && s'.b == b && s'.log == log
      && VRegsAgree(e, s'.e) && RefsAgree(c, b, 0, e, s'.e)
    case Halted(log) => s' == Halted(log)
    case Stuck => true
  }

  ghost predicate AgreeTo(c: Ctx, o: Oracle, n: nat)
    requires c.Ok()
  {
    forall m: nat :: m <= n ==> StatesAgree(c, Steps(c.f, o, m), Steps(c.g, o, m))
  }

  /** Both programs are at the end of the block that step n executes, in agreement. */
  lemma EndOfBlock(c: Ctx, o: Oracle, s: State, s': State)
    requires c.Ok() && StatesAgree(c, s, s') && AtEnd(c.f, o, s).Pt?
    ensures var x := AtEnd(c.f, o, s); var x' := AtEnd(c.g, o, s');
      && x'.Pt? && x'.log == x.log && x'.last == x.last
      && VRegsAgree(x.e, x'.e)
      && RefsAgree(c, s.b, |c.f.blocks[s.b].insts|, x.e, x'.e)
  {
    BlockAgrees(c, o, s.b, |c.f.blocks[s.b].insts|, s.e, s'.e, s.log);
  }

  lemma LiveOutIsLive(f: Func, b: nat, b2: nat, v: nat)
    requires f.Valid() && b < |f.blocks| && Edge(f.g, b, b2) && LiveIn(f, b2, v)
    ensures LiveAt(f, b, |f.blocks[b].insts|, v)
  {
    LiveThrough(f, b, |f.blocks[b].insts|, v);
  }

  lemma PhiArgument(c: Ctx, from: nat, to: nat, v: nat, e: Env)
    requires c.Ok() && from < |c.f.blocks| && Reachable(c.f.g, from) && Edge(c.f.g, from, to)
    requires to < |c.f.blocks| && v in c.phis[to]
    ensures EnterPhis(c.g.blocks[to].phis, from, to, e).refs(Phi(to, v)) ==
      Read(AsOperand(Out(c.f, c.t, c.phis, from, v)), e)
  {
    EdgeReachable(c.f.g, from, to);
    assert FilledPhis(c.f, c.t, c.phis, to, c.g.blocks[to].phis);
  }

  /** A PHI receives the value of the register along the edge taken. */
  lemma PhiCase(c: Ctx, o: Oracle, n: nat, v: nat)
    requires c.Ok() && StatesAgree(c, Steps(c.f, o, n), Steps(c.g, o, n))
    requires Steps(c.f, o, n + 1).At? && Steps(c.g, o, n + 1).At?
    requires Steps(c.g, o, n + 1).b == Steps(c.f, o, n + 1).b < |c.f.blocks|
    requires LiveIn(c.f, Steps(c.f, o, n + 1).b, v) && Steps(c.f, o, n + 1).e.vregs(v).Some?
    requires v in c.phis[Steps(c.f, o, n + 1).b]
    ensures TopAgrees(c, Steps(c.f, o, n + 1).b, 0, v, Steps(c.f, o, n + 1).e, Steps(c.g, o, n + 1).e)
  {
    hide Ctx.Done, TreeOf, LiveAt, Steps, AtEnd;
    var s, s' := Steps(c.f, o, n), Steps(c.g, o, n);
    var b2 := Steps(c.f, o, n + 1).b;
    StepTaken(c.f, o, n);
    StepTaken(c.g, o, n);
    EndOfBlock(c, o, s, s');
    var x, x' := AtEnd(c.f, o, s), AtEnd(c.g, o, s');
    LiveOutIsLive(c.f, s.b, b2, v);
    assert TopAgrees(c, s.b, |c.f.blocks[s.b].insts|, v, x.e, x'.e);
    PhiArgument(c, s.b, b2, v, x'.e);
    TopAtEntry(c.f, c.t, c.phis, b2, v);
  }

  lemma NotEntry(c: Ctx, a: nat, b: nat)
    requires c.Ok() && Edge(c.f.g, a, b) && b < |c.f.blocks| && Reachable(c.f.g, b)
    ensures b in c.t.idom
  {
  }

  lemma Quiet(c: Ctx, p: seq<nat>, b: nat, v: nat)
    requires c.Ok() && RunTo(c.f.g, p, b) && b in c.t.idom && LiveIn(c.f, b, v) && v !in c.phis[b]
    ensures QuietAfter(c.f, c.t, c.phis, p, Last(p, c.t.idom[b]), b, v)
  {
    QuietSinceIdom(c.f, c.t, c.live, c.phis, p, b, v);
  }

  /** Without a PHI the definition inherited from the immediate dominator is still current. */
  lemma NoPhiCase(c: Ctx, o: Oracle, n: nat, v: nat)
    requires c.Ok() && AgreeTo(c, o, n)
    requires Steps(c.f, o, n + 1).At? && Steps(c.g, o, n + 1).At?
    requires Steps(c.g, o, n + 1).b == Steps(c.f, o, n + 1).b < |c.f.blocks|
    requires LiveIn(c.f, Steps(c.f, o, n + 1).b, v) && Steps(c.f, o, n + 1).e.vregs(v).Some?
    requires v !in c.phis[Steps(c.f, o, n + 1).b]
    ensures TopAgrees(c, Steps(c.f, o, n + 1).b, 0, v, Steps(c.f, o, n + 1).e, Steps(c.g, o, n + 1).e)
  {
    hide Ctx.Done, TreeOf, LiveAt, Steps, AgreeTo;
    var b2 := Steps(c.f, o, n + 1).b;
    TrailIsRun(c.f, o, n + 1);
    StepTaken(c.f, o, n);
    NotEntry(c, Steps(c.f, o, n).b, b2);
    var p := Trail(c.f, o, n + 1);
    Quiet(c, p, b2, v);
    var m := Last(p, c.t.idom[b2]);
    CarriedOver(c, o, n, m, p, v);
    TopAtEntry(c.f, c.t, c.phis, b2, v);
  }

  lemma SameTrail(c: Ctx, o: Oracle, n: nat, p: seq<nat>, j: nat)
    requires c.Ok() && AgreeTo(c, o, n)
    requires Steps(c.f, o, n + 1).At? && Steps(c.g, o, n + 1).At? && p == Trail(c.f, o, n + 1)
    requires Steps(c.g, o, n + 1).b == Steps(c.f, o, n + 1).b
    requires j <= n + 1
    ensures |p| == n + 2 && Steps(c.f, o, j).At? && Steps(c.g, o, j).At?
    ensures Steps(c.f, o, j).b == p[j] == Steps(c.g, o, j).b
    ensures j <= n ==> StatesAgree(c, Steps(c.f, o, j), Steps(c.g, o, j))
  {
    hide Ctx.Done, TreeOf, LiveAt, Steps;
    TrailAt(c.f, o, n + 1, j);
    if j <= n {
      assert StatesAgree(c, Steps(c.f, o, j), Steps(c.g, o, j));
    }
  }

  /** The register and its stack top agree at the end of step m and are both untouched since. */
  lemma CarriedOver(c: Ctx, o: Oracle, n: nat, m: nat, p: seq<nat>, v: nat)
    requires c.Ok() && AgreeTo(c, o, n) && m <= n
    requires Steps(c.f, o, n + 1).At? && Steps(c.g, o, n + 1).At? && p == Trail(c.f, o, n + 1) && |p| == n + 2
    requires Steps(c.g, o, n + 1).b == Steps(c.f, o, n + 1).b
    requires forall i :: 0 <= i < |p| ==> p[i] < |c.f.blocks|
    requires Edge(c.f.g, p[m], p[m + 1]) && LiveIn(c.f, p[m + 1], v)
    requires forall j :: m < j <= n ==> !DefOrPhi(c.f, c.phis, p[j], v)
    requires v !in c.phis[p[n + 1]] && Steps(c.f, o, n + 1).e.vregs(v).Some?
    ensures Out(c.f, c.t, c.phis, p[m], v).Some?
    ensures Steps(c.g, o, n + 1).e.refs(Out(c.f, c.t, c.phis, p[m], v).value) == Steps(c.f, o, n + 1).e.vregs(v)
  {
    hide Ctx.Done, TreeOf, LiveAt, Steps, AgreeTo, AtEnd, Trail;
    forall j: nat | j <= n + 1
      ensures Steps(c.f, o, j).At? && Steps(c.g, o, j).At? && Steps(c.f, o, j).b == p[j] == Steps(c.g, o, j).b
    {
      SameTrail(c, o, n, p, j);
    }
    forall j | m < j <= n
      ensures NeverWrites(c.f.blocks[p[j]].insts, v)
    {
      assert !DefOrPhi(c.f, c.phis, p[j], v);
    }
    var s, s' := Steps(c.f, o, m), Steps(c.g, o, m);
    SameTrail(c, o, n, p, m);
    StepTaken(c.f, o, m);
    StepTaken(c.g, o, m);
    EndOfBlock(c, o, s, s');
    var x, x' := AtEnd(c.f, o, s), AtEnd(c.g, o, s');
    VRegPersists(c.f, o, m + 1, n + 1, v);
    LiveOutIsLive(c.f, s.b, p[m + 1], v);
    var k := |c.f.blocks[s.b].insts|;
    assert TopAgrees(c, s.b, k, v, x.e, x'.e);
    var r := Out(c.f, c.t, c.phis, p[m], v).value;
    TopSound(c.f, c.t, c.phis, s.b, k, v);
    RefPersists(c.g, o, m + 1, n + 1, r);
    KeptByPhis(c, o, p[m], p[m + 1], x'.e, r, v);
  }

  lemma KeptByPhis(c: Ctx, o: Oracle, from: nat, to: nat, e: Env, r: Ref, v: nat)
    requires c.Ok() && from < |c.f.blocks| && Reachable(c.f.g, from) && Edge(c.f.g, from, to)
    requires to < |c.f.blocks| && RefOf(c.f, c.phis, r, v) && v !in c.phis[to]
    ensures EnterPhis(c.g.blocks[to].phis, from, to, e).refs(r) == e.refs(r)
  {
    EdgeReachable(c.f.g, from, to);
    assert FilledPhis(c.f, c.t, c.phis, to, c.g.blocks[to].phis);
  }

  lemma {:induction false} AgreeUpTo(c: Ctx, o: Oracle, n: nat)
    requires c.Ok()
    ensures AgreeTo(c, o, n)
  {
    hide Ctx.Done, TreeOf, LiveAt;
    if n == 0 {
      EntryReachable(c.f.g);
      assert StatesAgree(c, Steps(c.f, o, 0), Steps(c.g, o, 0));
    } else {
      AgreeUpTo(c, o, n - 1);
      StepAgrees(c, o, n - 1);
    }
  }

  /** The terminators of corresponding blocks select the same successor. */
  lemma SameTerminator(c: Ctx, b: nat)
    requires c.Ok() && b < |c.f.blocks| && Reachable(c.f.g, b)
    ensures var i, i' := c.f.blocks[b].insts, c.g.blocks[b].insts;
      |i| == |i'| && i[|i| - 1].op == i'[|i'| - 1].op
  {
    SameSize(c, b);
    SameKind(c, b, |c.f.blocks[b].insts| - 1);
  }

  lemma NextRefsAgree(c: Ctx, o: Oracle, n: nat)
    requires c.Ok() && AgreeTo(c, o, n)
    requires Steps(c.f, o, n + 1).At? && Steps(c.g, o, n + 1).At?
    requires Steps(c.g, o, n + 1).b == Steps(c.f, o, n + 1).b < |c.f.blocks|
    ensures RefsAgree(c, Steps(c.f, o, n + 1).b, 0, Steps(c.f, o, n + 1).e, Steps(c.g, o, n + 1).e)
  {
    hide Ctx.Done, TreeOf, LiveAt, Steps, TopAgrees;
    var t, t' := Steps(c.f, o, n + 1), Steps(c.g, o, n + 1);
    assert StatesAgree(c, Steps(c.f, o, n), Steps(c.g, o, n));
    forall v: nat | LiveAt(c.f, t.b, 0, v) && t.e.vregs(v).Some?
      ensures TopAgrees(c, t.b, 0, v, t.e, t'.e)
    {
      if v in c.phis[t.b] {
        PhiCase(c, o, n, v);
      } else {
        NoPhiCase(c, o, n, v);
      }
    }
  }

  lemma StepAgrees(c: Ctx, o: Oracle, n: nat)
    requires c.Ok() && AgreeTo(c, o, n)
    ensures StatesAgree(c, Steps(c.f, o, n + 1), Steps(c.g, o, n + 1))
  {
    hide Ctx.Done, TreeOf, LiveAt, RefsAgree, Exec, Reachable;
    var s, s' := Steps(c.f, o, n), Steps(c.g, o, n);
    assert StatesAgree(c, s, s');
    var t, t' := Steps(c.f, o, n + 1), Steps(c.g, o, n + 1);
    assert t == Step(c.f, o, s) && t' == Step(c.g, o, s');
    if s.At? && AtEnd(c.f, o, s).Pt? {
      EndOfBlock(c, o, s, s');
      SameTerminator(c, s.b);
      assert t == Leave(c.f, o, s.b, AtEnd(c.f, o, s)) && t' == Leave(c.g, o, s.b, AtEnd(c.g, o, s'));
      if t.At? {
        assert Edge(c.f.g, s.b, t.b);
        EdgeReachable(c.f.g, s.b, t.b);
        NextRefsAgree(c, o, n);
        SourcePhis(c, t.b);
      }
    }
  }

  lemma SourcePhis(c: Ctx, b: nat)
    requires c.Ok() && b < |c.f.blocks|
    ensures c.f.blocks[b].phis == map[]
  {
  }

  /** At every point of a run that the source reaches, the renamed program has just read the
      same operand values. */
  lemma RenamedReads(c: Ctx, o: Oracle, n: nat, k: nat)
    requires c.Ok()
    ensures ReadsAlike(c.f, c.g, o, n, k)
  {
    hide Ctx.Done, TreeOf, LiveAt, Steps, RefsAgree, Exec;
    var s, s' := Steps(c.f, o, n), Steps(c.g, o, n);
    AgreeUpTo(c, o, n);
    assert StatesAgree(c, s, s');
    if s.At? && s.b < |c.f.blocks| && k <= |c.f.blocks[s.b].insts| && Exec(c.f, o, s.b, k, s.e, s.log).Pt? {
      BlockAgrees(c, o, s.b, k, s.e, s'.e, s.log);
    }
  }

  /** SSA construction preserves meaning.  Under every oracle, as long as the source program
      reads only defined registers, the renamed program is at the same block after the same
      number of steps, and every instruction reads exactly the same operand values. */
  lemma RenamingPreservesMeaning(c: Ctx)
    requires c.Ok()
    ensures SameMeaning(c.f, c.g)
  {
    hide Ctx.Done, TreeOf, LiveAt, Steps, RefsAgree, ReadsAlike;
    forall o: Oracle, n: nat | Steps(c.f, o, n) != Stuck
      ensures Seen(Steps(c.g, o, n)) == Seen(Steps(c.f, o, n))
    {
      AgreeUpTo(c, o, n);
      assert StatesAgree(c, Steps(c.f, o, n), Steps(c.g, o, n));
    }
    forall o: Oracle, n: nat, k: nat
      ensures ReadsAlike(c.f, c.g, o, n, k)
    {
      RenamedReads(c, o, n, k);
    }
  }
}
