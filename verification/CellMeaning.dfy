/** Promotion of a cell preserves meaning (passes/mem_to_reg.cpp): on every run each load of an
    initialised cell is replaced by a reference that holds the value last stored there. */
module CellMeaning {
  import opened Cfg
  import opened Options
  import opened Ssa
  import opened SsaForm
  import opened CellPromotion

  // ---------------------------------------------------------------- inside a block

  /** The environments agree on everything but the cell. */
  ghost predicate RestAgrees(f: Func, c: nat, e: Env, e': Env) {
    && (forall r :: !CellRef(f, c, r) ==> e'.refs(r) == e.refs(r))
    && (forall v: nat :: v != c ==> e'.vregs(v) == e.vregs(v))
    && e'.undef == e.undef
  }

  /** An initialised cell holds what its current definition holds. */
  ghost predicate CellAgrees(x: Ctx, b: nat, k: nat, e: Env, e': Env)
    requires x.Ok() && b < |x.f.blocks| && k <= |x.f.blocks[b].insts|
  {
    e.vregs(x.c).Some? ==>
      var top := TopAt(x.f, x.t, x.phis, x.c, b, k);
      top.Some? && Read(top.value, e') == e.vregs(x.c)
  }

  lemma BlockOfCell(x: Ctx, b: nat, k: nat)
    requires x.Ok() && b < |x.f.blocks| && Reachable(x.f.g, b) && k < |x.f.blocks[b].insts|
    ensures |x.g.blocks[b].insts| == |x.f.blocks[b].insts|
    ensures x.g.blocks[b].insts[k] == PromotedInst(x.f, x.t, x.phis, x.c, b, k)
    ensures CellInst(x.f.blocks[b].insts[k], x.c)
    ensures forall j: nat :: j < |x.f.blocks[b].insts[k].args| ==> NotCell(x.f, x.c, x.f.blocks[b].insts[k].args[j])
  {
    assert CellBlock(x.f, x.c, b);
    assert PromotedBlock(x.f, x.t, x.phis, x.c, b, x.g.blocks[b]);
  }

  lemma SameRead(f: Func, c: nat, a: Operand, e: Env, e': Env)
    requires RestAgrees(f, c, e, e') && NotCell(f, c, a) && a != VReg(c)
    ensures Read(a, e') == Read(a, e)
  {
  }

  /** Writing the results of instruction k does not change the current definition. */
  lemma TopUntouched(x: Ctx, b: nat, k: nat, inst: Inst, vals: seq<Val>, o: Oracle, log: seq<Event>, e': Env)
    requires x.Ok() && b < |x.f.blocks| && Reachable(x.f.g, b) && k < |x.f.blocks[b].insts|
    requires TopAt(x.f, x.t, x.phis, x.c, b, k).Some?
    ensures var a := TopAt(x.f, x.t, x.phis, x.c, b, k).value;
      Read(a, Write(e', b, k, inst, vals, o, log)) == Read(a, e')
  {
    hide Ctx.Done, TreeOf, Dom;
    DoneForm(x);
    TopIsOk(x.f, x.t, x.phis, x.c, b, k);
  }

  lemma DoneForm(x: Ctx)
    requires x.Ok()
    ensures CellForm(x.f, x.c) && Closed(x.f, x.t, x.phis, x.c)
  {
  }

  /** One instruction, before and after. */
  lemma InstAgrees(x: Ctx, o: Oracle, b: nat, k: nat, e: Env, e': Env, log: seq<Event>)
    requires x.Ok() && b < |x.f.blocks| && Reachable(x.f.g, b) && k < |x.f.blocks[b].insts| && k < |x.g.blocks[b].insts|
    requires RestAgrees(x.f, x.c, e, e') && CellAgrees(x, b, k, e, e')
    requires ExecInst(b, k, x.f.blocks[b].insts[k], o, e, log).Pt?
    ensures var p := ExecInst(b, k, x.f.blocks[b].insts[k], o, e, log);
      var p' := ExecInst(b, k, x.g.blocks[b].insts[k], o, e', log);
      && p'.Pt? && p'.log == p.log && p'.last == p.last
      && RestAgrees(x.f, x.c, p.e, p'.e) && CellAgrees(x, b, k + 1, p.e, p'.e)
  {
    hide Ctx.Done, TreeOf;
    BlockOfCell(x, b, k);
    var inst, inst' := x.f.blocks[b].insts[k], x.g.blocks[b].insts[k];
    assert Ssa.Defined(inst.args, e);
    forall j | 0 <= j < |inst.args|
      ensures Read(inst'.args[j], e') == Read(inst.args[j], e)
    {
      assert Read(inst.args[j], e).Some?;
      if !IsLoad(inst, x.c) {
        SameRead(x.f, x.c, inst.args[j], e, e');
      }
    }
    assert Values(inst'.args, e') == Values(inst.args, e);
    var vals := Values(inst.args, e);
    var log' := if Pure(inst.op) then log else log + [Event(b, k, inst.op, vals)];
    if IsStore(inst, x.c) {
      StoreAgrees(x, b, k, e, e', o, log');
    } else {
      OtherAgrees(x, b, k, inst', vals, e, e', o, log');
    }
  }

  lemma StoreAgrees(x: Ctx, b: nat, k: nat, e: Env, e': Env, o: Oracle, log: seq<Event>)
    requires x.Ok() && b < |x.f.blocks| && Reachable(x.f.g, b) && k < |x.f.blocks[b].insts| && k < |x.g.blocks[b].insts|
    requires RestAgrees(x.f, x.c, e, e') && IsStore(x.f.blocks[b].insts[k], x.c)
    requires Ssa.Defined(x.f.blocks[b].insts[k].args, e)
    ensures var inst, inst' := x.f.blocks[b].insts[k], x.g.blocks[b].insts[k];
      var vals := Values(inst.args, e);
      && RestAgrees(x.f, x.c, Write(e, b, k, inst, vals, o, log), Write(e', b, k, inst', vals, o, log))
      && CellAgrees(x, b, k + 1, Write(e, b, k, inst, vals, o, log), Write(e', b, k, inst', vals, o, log))
  {
    hide Ctx.Done, TreeOf;
    BlockOfCell(x, b, k);
    var inst := x.f.blocks[b].insts[k];
    SameRead(x.f, x.c, inst.args[0], e, e');
  }

  lemma OtherAgrees(x: Ctx, b: nat, k: nat, inst': Inst, vals: seq<Val>, e: Env, e': Env, o: Oracle, log: seq<Event>)
    requires x.Ok() && b < |x.f.blocks| && Reachable(x.f.g, b) && k < |x.f.blocks[b].insts|
    requires RestAgrees(x.f, x.c, e, e') && CellAgrees(x, b, k, e, e') && !IsStore(x.f.blocks[b].insts[k], x.c)
    requires inst'.op == x.f.blocks[b].insts[k].op && inst'.rets == x.f.blocks[b].insts[k].rets
    ensures var inst := x.f.blocks[b].insts[k];
      && RestAgrees(x.f, x.c, Write(e, b, k, inst, vals, o, log), Write(e', b, k, inst', vals, o, log))
      && CellAgrees(x, b, k + 1, Write(e, b, k, inst, vals, o, log), Write(e', b, k, inst', vals, o, log))
  {
    hide Ctx.Done, TreeOf;
    if e.vregs(x.c).Some? {
      TopUntouched(x, b, k, inst', vals, o, log, e');
    }
  }

  lemma {:induction false} BlockAgrees(x: Ctx, o: Oracle, b: nat, k: nat, e: Env, e': Env, log: seq<Event>)
    requires x.Ok() && b < |x.f.blocks| && Reachable(x.f.g, b) && k <= |x.f.blocks[b].insts|
    requires RestAgrees(x.f, x.c, e, e') && CellAgrees(x, b, 0, e, e')
    requires Exec(x.f, o, b, k, e, log).Pt?
    ensures |x.g.blocks[b].insts| == |x.f.blocks[b].insts|
    ensures var p := Exec(x.f, o, b, k, e, log); var p' := Exec(x.g, o, b, k, e', log);
      && p'.Pt? && p'.log == p.log && p'.last == p.last
      && RestAgrees(x.f, x.c, p.e, p'.e) && CellAgrees(x, b, k, p.e, p'.e)
  {
    hide Ctx.Done, TreeOf, CellAgrees, RestAgrees;
    SameLength(x, b);
    if k > 0 {
      BlockAgrees(x, o, b, k - 1, e, e', log);
      var p, p' := Exec(x.f, o, b, k - 1, e, log), Exec(x.g, o, b, k - 1, e', log);
      InstAgrees(x, o, b, k - 1, p.e, p'.e, p.log);
    }
  }

  lemma SameLength(x: Ctx, b: nat)
    requires x.Ok() && b < |x.f.blocks| && Reachable(x.f.g, b)
    ensures |x.g.blocks[b].insts| == |x.f.blocks[b].insts|
    ensures var i, i' := x.f.blocks[b].insts, x.g.blocks[b].insts;
      |i| > 0 && i'[|i| - 1].op == i[|i| - 1].op
  {
    assert PromotedBlock(x.f, x.t, x.phis, x.c, b, x.g.blocks[b]);
  }

  // ---------------------------------------------------------------- across edges

  ghost predicate StatesAgree(x: Ctx, s: State, s': State)
    requires x.Ok()
  {
    match s
    case At(b, e, log) =>
      && b < |x.f.blocks| && Reachable(x.f.g, b)
      && s'.At? && s'.b == b && s'.log == log
      && RestAgrees(x.f, x.c, e, s'.e) && CellAgrees(x, b, 0, e, s'.e)
    case Halted(log) => s' == Halted(log)
    case Stuck => true
  }

  ghost predicate AgreeTo(x: Ctx, o: Oracle, n: nat)
    requires x.Ok()
  {
    forall m: nat :: m <= n ==> StatesAgree(x, Steps(x.f, o, m), Steps(x.g, o, m))
  }

  lemma EndOfBlock(x: Ctx, o: Oracle, s: State, s': State)
    requires x.Ok() && StatesAgree(x, s, s') && AtEnd(x.f, o, s).Pt?
    ensures var p := AtEnd(x.f, o, s); var p' := AtEnd(x.g, o, s');
      && p'.Pt? && p'.log == p.log && p'.last == p.last
      && RestAgrees(x.f, x.c, p.e, p'.e) && CellAgrees(x, s.b, |x.f.blocks[s.b].insts|, p.e, p'.e)
  {
    hide Ctx.Done, TreeOf, CellAgrees, RestAgrees;
    BlockAgrees(x, o, s.b, |x.f.blocks[s.b].insts|, s.e, s'.e, s.log);
  }

  lemma PhisOfBlock(x: Ctx, b: nat)
    requires x.Ok() && b < |x.f.blocks| && Reachable(x.f.g, b)
    ensures CellBlock(x.f, x.c, b) && PromotedPhis(x.f, x.t, x.phis, x.c, b, x.g.blocks[b].phis)
  {
    assert CellBlock(x.f, x.c, b);
    assert PromotedBlock(x.f, x.t, x.phis, x.c, b, x.g.blocks[b]);
  }

  /** Along an edge the other PHIs get the same values. */
  lemma EnterAgrees(x: Ctx, from: nat, to: nat, e: Env, e': Env)
    requires x.Ok() && to < |x.f.blocks| && Reachable(x.f.g, to) && RestAgrees(x.f, x.c, e, e')
    ensures RestAgrees(x.f, x.c, EnterPhis(x.f.blocks[to].phis, from, to, e),
      EnterPhis(x.g.blocks[to].phis, from, to, e'))
  {
    hide Ctx.Done, TreeOf;
    PhisOfBlock(x, to);
    var h, h' := EnterPhis(x.f.blocks[to].phis, from, to, e), EnterPhis(x.g.blocks[to].phis, from, to, e');
    forall r | !CellRef(x.f, x.c, r)
      ensures h'.refs(r) == h.refs(r)
    {
      if r.Phi? && r.b == to && r.id in x.f.blocks[to].phis && from in x.f.blocks[to].phis[r.id] {
        SameRead(x.f, x.c, x.f.blocks[to].phis[r.id][from], e, e');
      }
    }
  }

  lemma PhiArgument(x: Ctx, from: nat, to: nat, e: Env)
    requires x.Ok() && from < |x.f.blocks| && Reachable(x.f.g, from) && Edge(x.f.g, from, to)
    requires to < |x.f.blocks| && to in x.phis
    ensures EnterPhis(x.g.blocks[to].phis, from, to, e).refs(Phi(to, x.c)) ==
      Read(OrUndef(Out(x.f, x.t, x.phis, x.c, from)), e)
  {
    hide Ctx.Done, TreeOf;
    EdgeReachable(x.f.g, from, to);
    PhisOfBlock(x, to);
  }

  /** A PHI receives the content of the cell along the edge taken. */
  lemma PhiCase(x: Ctx, o: Oracle, n: nat)
    requires x.Ok() && StatesAgree(x, Steps(x.f, o, n), Steps(x.g, o, n))
    requires Steps(x.f, o, n + 1).At? && Steps(x.g, o, n + 1).At?
    requires Steps(x.g, o, n + 1).b == Steps(x.f, o, n + 1).b < |x.f.blocks| && Steps(x.f, o, n + 1).b in x.phis
    ensures CellAgrees(x, Steps(x.f, o, n + 1).b, 0, Steps(x.f, o, n + 1).e, Steps(x.g, o, n + 1).e)
  {
    hide Ctx.Done, TreeOf, Steps, AtEnd, RestAgrees;
    var s, s' := Steps(x.f, o, n), Steps(x.g, o, n);
    var to := Steps(x.f, o, n + 1).b;
    StepTaken(x.f, o, n);
    StepTaken(x.g, o, n);
    EndOfBlock(x, o, s, s');
    PhiArgument(x, s.b, to, AtEnd(x.g, o, s').e);
    TopAtEntry(x.f, x.t, x.phis, x.c, to);
  }

  // ---------------------------------------------------------------- without a PHI

  /** If b has no PHI, no path from idom(b) to b that avoids idom(b) meets a store or a PHI. */
  lemma NothingBetween(x: Ctx, b: nat, q: seq<nat>, k: nat)
    requires x.Ok() && b in x.t.idom && b < |x.f.blocks| && b !in x.phis
    requires Path(x.f.g, q) && q[0] == x.t.idom[b] && q[|q| - 1] == b && x.t.idom[b] !in q[1..]
    requires 0 < k < |q| - 1
    ensures !Defines(x.f, x.phis, x.c, q[k])
    decreases |q| - k
  {
    hide Defines, CellForm, IsPromoted;
    if Defines(x.f, x.phis, x.c, q[k]) {
      assert IsIdom(x.f.g, x.t.idom[b], b) && Reachable(x.f.g, b);
      BetweenIsNotAbove(x.f.g, x.t.idom[b], b, q, k);
      Along(x.f.g, q, k, b);
      var j := CrossesFrontier(x.f.g, q[k], q[k..]);
      Along(x.f.g, q, k + j, b);
      assert q[k + j] in x.t.front[q[k]];
      assert q[k + j] in x.phis;
      IsPhi(x, q[k + j]);
      NothingBetween(x, b, q, k + j);
      assert false;
    }
  }

  lemma IsPhi(x: Ctx, b: nat)
    requires b in x.phis
    ensures Defines(x.f, x.phis, x.c, b)
  {
  }

  lemma {:induction false} Along(g: Graph, q: seq<nat>, k: nat, b: nat)
    requires g.Valid() && Path(g, q) && k < |q| && Dom(g, q[0], b) && Reachable(g, b)
    ensures Reachable(g, q[k])
  {
    if k == 0 {
      DomIsReachable(g, q[0], b);
    } else {
      Along(g, q, k - 1, b);
      EdgeReachable(g, q[k - 1], q[k]);
    }
  }

  /** After its last visit of idom(b), a run to b meets no store and no PHI before b. */
  lemma QuietSinceIdom(x: Ctx, p: seq<nat>, b: nat, j: nat)
    requires x.Ok() && RunTo(x.f.g, p, b) && b in x.t.idom && b < |x.f.blocks| && b !in x.phis
    requires x.t.idom[b] in p && Last(p, x.t.idom[b]) < j < |p| - 1
    ensures !Defines(x.f, x.phis, x.c, p[j])
  {
    hide Defines, Ctx.Done, TreeOf;
    var m := Last(p, x.t.idom[b]);
    var q := p[m..];
    TailPath(x.f.g, p, m);
    assert q[1..] == p[m + 1..];
    assert q[j - m] == p[j];
    NothingBetween(x, b, q, j - m);
  }

  lemma TailPath(g: Graph, p: seq<nat>, m: nat)
    requires Path(g, p) && m < |p|
    ensures Path(g, p[m..])
  {
    var q := p[m..];
    forall i | 0 <= i < |q| - 1
      ensures Edge(g, q[i], q[i + 1])
    {
      assert q[i] == p[m + i] && q[i + 1] == p[m + i + 1];
    }
  }

  lemma NeverStored(f: Func, phis: set<nat>, c: nat, b: nat)
    requires b < |f.blocks| && !Defines(f, phis, c, b)
    ensures NeverWrites(f.blocks[b].insts, c)
  {
    forall k | 0 <= k < |f.blocks[b].insts|
      ensures c !in f.blocks[b].insts[k].rets
    {
      assert !IsStore(f.blocks[b].insts[k], c);
    }
  }

  /** The block of the current definition is not visited after the last visit of d. */
  lemma NotVisitedAfter(g: Graph, a: nat, d: nat, b: nat, p: seq<nat>, j: nat)
    requires g.Valid() && Dom(g, a, d) && SDom(g, d, b) && RunTo(g, p, b)
    ensures d in p
    ensures Last(p, d) < j < |p| ==> p[j] != a
  {
    assert d in p;
    if Last(p, d) < j < |p| && p[j] == a {
      LastIsLast(p, a, j);
      if a != d {
        LastVisitOrder(g, a, d, b, p);
      }
      assert false;
    }
  }

  lemma SameTrail(x: Ctx, o: Oracle, n: nat, p: seq<nat>, j: nat)
    requires x.Ok() && AgreeTo(x, o, n)
    requires Steps(x.f, o, n + 1).At? && Steps(x.g, o, n + 1).At? && p == Trail(x.f, o, n + 1)
    requires Steps(x.g, o, n + 1).b == Steps(x.f, o, n + 1).b && j <= n + 1
    ensures |p| == n + 2 && Steps(x.f, o, j).At? && Steps(x.g, o, j).At?
    ensures Steps(x.f, o, j).b == p[j] == Steps(x.g, o, j).b
    ensures j <= n ==> StatesAgree(x, Steps(x.f, o, j), Steps(x.g, o, j))
  {
    hide Ctx.Done, TreeOf, Steps;
    TrailAt(x.f, o, n + 1, j);
    if j <= n {
      assert StatesAgree(x, Steps(x.f, o, j), Steps(x.g, o, j));
    }
  }

  /** The cell and its definition agree at the end of step m and are both untouched since. */
  lemma CarriedOver(x: Ctx, o: Oracle, n: nat, m: nat, p: seq<nat>, a: Operand)
    requires x.Ok() && AgreeTo(x, o, n) && m <= n
    requires Steps(x.f, o, n + 1).At? && Steps(x.g, o, n + 1).At? && p == Trail(x.f, o, n + 1) && |p| == n + 2
    requires Steps(x.g, o, n + 1).b == Steps(x.f, o, n + 1).b
    requires forall i :: 0 <= i < |p| ==> p[i] < |x.f.blocks|
    requires forall j :: m < j <= n ==> !Defines(x.f, x.phis, x.c, p[j])
    requires Steps(x.f, o, n + 1).e.vregs(x.c).Some?
    requires Out(x.f, x.t, x.phis, x.c, p[m]).Some? ==> Out(x.f, x.t, x.phis, x.c, p[m]).value == a
    requires !a.VReg? && (a.Use? ==> forall j :: m < j <= n + 1 ==> p[j] != a.r.b)
    ensures Out(x.f, x.t, x.phis, x.c, p[m]).Some?
    ensures Read(a, Steps(x.g, o, n + 1).e) == Steps(x.f, o, n + 1).e.vregs(x.c)
  {
    hide Ctx.Done, TreeOf, Steps, AgreeTo, AtEnd, Trail, Defines, RestAgrees;
    forall j: nat | j <= n + 1
      ensures Steps(x.f, o, j).At? && Steps(x.g, o, j).At? && Steps(x.f, o, j).b == p[j] == Steps(x.g, o, j).b
    {
      SameTrail(x, o, n, p, j);
    }
    forall j | m < j <= n
      ensures NeverWrites(x.f.blocks[p[j]].insts, x.c)
    {
      NeverStored(x.f, x.phis, x.c, p[j]);
    }
    SameTrail(x, o, n, p, m);
    StepTaken(x.f, o, m);
    StepTaken(x.g, o, m);
    EndOfBlock(x, o, Steps(x.f, o, m), Steps(x.g, o, m));
    VRegPersists(x.f, o, m + 1, n + 1, x.c);
    UndefStays(x.g, o, m + 1);
    UndefStays(x.g, o, n + 1);
    if a.Use? {
      RefPersists(x.g, o, m + 1, n + 1, a.r);
    }
  }

  lemma NotEntry(x: Ctx, a: nat, b: nat)
    requires x.Ok() && Edge(x.f.g, a, b) && b < |x.f.blocks| && Reachable(x.f.g, b)
    ensures b in x.t.idom
  {
  }

  /** Without a PHI the definition inherited from the immediate dominator is still current. */
  lemma NoPhiCase(x: Ctx, o: Oracle, n: nat)
    requires x.Ok() && AgreeTo(x, o, n)
    requires Steps(x.f, o, n + 1).At? && Steps(x.g, o, n + 1).At?
    requires Steps(x.g, o, n + 1).b == Steps(x.f, o, n + 1).b < |x.f.blocks| && Reachable(x.f.g, Steps(x.f, o, n + 1).b)
    requires Steps(x.f, o, n + 1).b !in x.phis
    ensures CellAgrees(x, Steps(x.f, o, n + 1).b, 0, Steps(x.f, o, n + 1).e, Steps(x.g, o, n + 1).e)
  {
    hide Ctx.Done, TreeOf, Steps, AgreeTo, AtEnd, Trail, Defines, Dom;
    var b := Steps(x.f, o, n + 1).b;
    TrailIsRun(x.f, o, n + 1);
    StepTaken(x.f, o, n);
    NotEntry(x, Steps(x.f, o, n).b, b);
    DoneForm(x);
    IdomDominates(x.f.g, x.t, b);
    TopAtEntry(x.f, x.t, x.phis, x.c, b);
    if Steps(x.f, o, n + 1).e.vregs(x.c).Some? {
      FromIdom(x, o, n, b, Trail(x.f, o, n + 1));
    }
  }

  lemma FromIdom(x: Ctx, o: Oracle, n: nat, b: nat, p: seq<nat>)
    requires x.Ok() && AgreeTo(x, o, n)
    requires Steps(x.f, o, n + 1).At? && Steps(x.g, o, n + 1).At? && Steps(x.f, o, n + 1).b == b
    requires Steps(x.g, o, n + 1).b == b && b < |x.f.blocks| && Reachable(x.f.g, b) && b !in x.phis
    requires Steps(x.f, o, n + 1).e.vregs(x.c).Some? && b in x.t.idom
    requires x.t.idom[b] < |x.f.blocks| && SDom(x.f.g, x.t.idom[b], b) && Reachable(x.f.g, x.t.idom[b])
    requires p == Trail(x.f, o, n + 1) && RunTo(x.f.g, p, b) && |p| == n + 2
    ensures var top := Out(x.f, x.t, x.phis, x.c, x.t.idom[b]);
      top.Some? && Read(top.value, Steps(x.g, o, n + 1).e) == Steps(x.f, o, n + 1).e.vregs(x.c)
  {
    hide Ctx.Done, TreeOf, Steps, AgreeTo, AtEnd, Trail, Defines, Dom;
    var d := x.t.idom[b];
    DominatesVisits(x.f.g, d, b, p);
    var m := Last(p, d);
    forall j | m < j <= n
      ensures !Defines(x.f, x.phis, x.c, p[j])
    {
      QuietSinceIdom(x, p, b, j);
    }
    DoneForm(x);
    TopIsOk(x.f, x.t, x.phis, x.c, d, |x.f.blocks[d].insts|);
    var a := OrUndef(Out(x.f, x.t, x.phis, x.c, d));
    if a.Use? {
      forall j | m < j <= n + 1
        ensures p[j] != a.r.b
      {
        NotVisitedAfter(x.f.g, a.r.b, d, b, p, j);
      }
    }
    CarriedOver(x, o, n, m, p, a);
  }

  lemma DominatesVisits(g: Graph, d: nat, b: nat, p: seq<nat>)
    requires SDom(g, d, b) && RunTo(g, p, b)
    ensures d in p && Last(p, d) < |p| - 1
  {
  }

  // ---------------------------------------------------------------- whole runs

  lemma StepAgrees(x: Ctx, o: Oracle, n: nat)
    requires x.Ok() && AgreeTo(x, o, n)
    ensures StatesAgree(x, Steps(x.f, o, n + 1), Steps(x.g, o, n + 1))
  {
    hide Ctx.Done, TreeOf, RestAgrees, CellAgrees, Exec, EnterPhis, Reachable;
    var s, s' := Steps(x.f, o, n), Steps(x.g, o, n);
    assert StatesAgree(x, s, s');
    var u, u' := Steps(x.f, o, n + 1), Steps(x.g, o, n + 1);
    assert u == Step(x.f, o, s) && u' == Step(x.g, o, s');
    if s.At? && AtEnd(x.f, o, s).Pt? {
      EndOfBlock(x, o, s, s');
      SameLength(x, s.b);
      assert u == Leave(x.f, o, s.b, AtEnd(x.f, o, s)) && u' == Leave(x.g, o, s.b, AtEnd(x.g, o, s'));
      if u.At? {
        assert Edge(x.f.g, s.b, u.b);
        EdgeReachable(x.f.g, s.b, u.b);
        EnterAgrees(x, s.b, u.b, AtEnd(x.f, o, s).e, AtEnd(x.g, o, s').e);
        if u.b in x.phis {
          PhiCase(x, o, n);
        } else {
          NoPhiCase(x, o, n);
        }
      }
    }
  }

  lemma {:induction false} AgreeUpTo(x: Ctx, o: Oracle, n: nat)
    requires x.Ok()
    ensures AgreeTo(x, o, n)
  {
    hide Ctx.Done, TreeOf;
    if n == 0 {
      EntryReachable(x.f.g);
      assert StatesAgree(x, Steps(x.f, o, 0), Steps(x.g, o, 0));
    } else {
      AgreeUpTo(x, o, n - 1);
      StepAgrees(x, o, n - 1);
    }
  }

  /** At every point of a run that the source reaches, the promoted program has just read the
      same operand values; at a load that is the content of the cell. */
  lemma PromotedReads(x: Ctx, o: Oracle, n: nat, k: nat)
    requires x.Ok()
    ensures ReadsAlike(x.f, x.g, o, n, k)
  {
    hide Ctx.Done, TreeOf, Steps, RestAgrees, CellAgrees, Exec;
    AgreeUpTo(x, o, n);
    var s, s' := Steps(x.f, o, n), Steps(x.g, o, n);
    assert StatesAgree(x, s, s');
    if s.At? && s.b < |x.f.blocks| && k <= |x.f.blocks[s.b].insts| && Exec(x.f, o, s.b, k, s.e, s.log).Pt? {
      BlockAgrees(x, o, s.b, k, s.e, s'.e, s.log);
    }
  }

  /** Promotion preserves meaning.  Under every oracle, as long as the source program loads
      only initialised cells, the promoted program is at the same block after the same number
      of steps, and every instruction reads the same operand values. */
  lemma PromotionPreservesMeaning(x: Ctx)
    requires x.Ok()
    ensures SameMeaning(x.f, x.g)
  {
    hide Ctx.Done, TreeOf, Steps, RestAgrees, CellAgrees, ReadsAlike;
    forall o: Oracle, n: nat | Steps(x.f, o, n) != Stuck
      ensures Seen(Steps(x.g, o, n)) == Seen(Steps(x.f, o, n))
    {
      AgreeUpTo(x, o, n);
      assert StatesAgree(x, Steps(x.f, o, n), Steps(x.g, o, n));
    }
    forall o: Oracle, n: nat, k: nat
      ensures ReadsAlike(x.f, x.g, o, n, k)
    {
      PromotedReads(x, o, n, k);
    }
  }

  /** At every load the new operand holds what the cell holds. */
  lemma LoadReadsLastStore(x: Ctx, o: Oracle, n: nat, k: nat)
    requires x.Ok() && Steps(x.f, o, n).At? && Steps(x.f, o, n).b < |x.f.blocks|
    requires k < |x.f.blocks[Steps(x.f, o, n).b].insts| && IsLoad(x.f.blocks[Steps(x.f, o, n).b].insts[k], x.c)
    ensures var s, s' := Steps(x.f, o, n), Steps(x.g, o, n);
      && s'.At? && |x.g.blocks[s.b].insts| == |x.f.blocks[s.b].insts| && |x.g.blocks[s.b].insts[k].args| == 1
      && var p, p' := Exec(x.f, o, s.b, k, s.e, s.log), Exec(x.g, o, s.b, k, s'.e, s'.log);
         p.Pt? && p.e.vregs(x.c).Some? ==> p'.Pt? && Read(x.g.blocks[s.b].insts[k].args[0], p'.e) == p.e.vregs(x.c)
  {
    hide Ctx.Done, TreeOf, Steps, RestAgrees, Exec;
    AgreeUpTo(x, o, n);
    var s, s' := Steps(x.f, o, n), Steps(x.g, o, n);
    assert StatesAgree(x, s, s');
    BlockOfCell(x, s.b, k);
    if Exec(x.f, o, s.b, k, s.e, s.log).Pt? {
      BlockAgrees(x, o, s.b, k, s.e, s'.e, s.log);
    }
  }

  // ---------------------------------------------------------------- the result is in SSA form

  lemma SameInsts(x: Ctx, r: Ref)
    requires x.Ok() && Exists(x.f, InstOf(r)) && Reachable(x.f.g, r.b)
    ensures Exists(x.g, InstOf(r))
  {
    hide Ctx.Done, TreeOf;
    SameLength(x, r.b);
    PhisOfBlock(x, r.b);
  }

  lemma OldOperandOk(x: Ctx, a: Operand, b: nat, k: nat)
    requires x.Ok() && b < |x.f.blocks| && Reachable(x.f.g, b) && OperandOk(x.f, a, b, k)
    ensures OperandOk(x.g, a, b, k)
  {
    hide Ctx.Done, TreeOf, Dom;
    if a.Use? {
      if a.r.b != b {
        DomIsReachable(x.f.g, a.r.b, b);
      }
      SameInsts(x, a.r);
    }
  }

  lemma NewOperandOk(x: Ctx, b: nat, k: nat)
    requires x.Ok() && b < |x.f.blocks| && Reachable(x.f.g, b) && k <= |x.f.blocks[b].insts|
    ensures OperandOk(x.g, OrUndef(TopAt(x.f, x.t, x.phis, x.c, b, k)), b, k)
  {
    hide Ctx.Done, TreeOf, Dom;
    DoneForm(x);
    TopIsOk(x.f, x.t, x.phis, x.c, b, k);
    var a := OrUndef(TopAt(x.f, x.t, x.phis, x.c, b, k));
    if a.Use? {
      DomIsReachable(x.f.g, a.r.b, b);
      if CellRef(x.f, x.c, a.r) {
        PhisOfBlock(x, a.r.b);
      } else {
        SameInsts(x, a.r);
      }
    }
  }

  /** Every definition still dominates its uses. */
  lemma PromotionKeepsDominance(x: Ctx)
    requires x.Ok()
    ensures DefsDominateUses(x.g)
  {
    hide Ctx.Done, TreeOf, Dom, OperandOk;
    forall b: nat | b < |x.g.blocks| && Reachable(x.g.g, b)
      ensures BlockOk(x.g, b)
    {
      SameLength(x, b);
      SourceBlockOk(x, b);
      forall k: nat | k < |x.g.blocks[b].insts|
        ensures InstOk(x.g, b, k)
      {
        PromotedInstOk(x, b, k);
      }
      forall i: nat | i < |x.g.g.succs[b]|
        ensures EdgeOk(x.g, b, x.g.g.succs[b][i])
      {
        assert EdgeOk(x.f, b, x.f.g.succs[b][i]);
        assert Edge(x.f.g, b, x.f.g.succs[b][i]);
        PromotedEdgeOk(x, b, x.f.g.succs[b][i]);
      }
    }
  }

  lemma SourceBlockOk(x: Ctx, b: nat)
    requires x.Ok() && b < |x.f.blocks| && Reachable(x.f.g, b)
    ensures BlockOk(x.f, b)
  {
  }

  lemma PromotedInstOk(x: Ctx, b: nat, k: nat)
    requires x.Ok() && b < |x.f.blocks| && Reachable(x.f.g, b) && k < |x.f.blocks[b].insts| && k < |x.g.blocks[b].insts|
    requires BlockOk(x.f, b)
    ensures InstOk(x.g, b, k)
  {
    hide Ctx.Done, TreeOf, Dom, OperandOk;
    BlockOfCell(x, b, k);
    assert InstOk(x.f, b, k);
    NewOperandOk(x, b, k);
    forall j | 0 <= j < |x.g.blocks[b].insts[k].args|
      ensures OperandOk(x.g, x.g.blocks[b].insts[k].args[j], b, k)
    {
      if !IsLoad(x.f.blocks[b].insts[k], x.c) {
        OldOperandOk(x, x.f.blocks[b].insts[k].args[j], b, k);
      }
    }
  }

  lemma PromotedEdgeOk(x: Ctx, b: nat, s: nat)
    requires x.Ok() && b < |x.f.blocks| && s < |x.f.blocks| && Reachable(x.f.g, b) && Edge(x.f.g, b, s)
    requires EdgeOk(x.f, b, s)
    requires |x.g.blocks[b].insts| == |x.f.blocks[b].insts|
    ensures EdgeOk(x.g, b, s)
  {
    hide Ctx.Done, TreeOf, Dom, OperandOk;
    EdgeReachable(x.f.g, b, s);
    PhisOfBlock(x, s);
    forall id | id in x.g.blocks[s].phis
      ensures PhiOk(x.g, b, s, id)
    {
      if id in x.f.blocks[s].phis {
        assert PhiOk(x.f, b, s, id);
        OldOperandOk(x, x.f.blocks[s].phis[id][b], b, |x.f.blocks[b].insts|);
      } else {
        NewOperandOk(x, b, |x.f.blocks[b].insts|);
      }
    }
  }
}
