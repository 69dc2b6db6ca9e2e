/** Renaming along the dominator tree (the recursive rename closure of core/parser_phi.cpp).
    The renamer rewrites operands in place, fills PHIs in successor blocks and keeps one
    stack of definitions per register. */
module Renaming {
  import opened Cfg
  import opened Options
  import opened Ssa
  import opened Liveness
  import opened Placement
  import opened PhiMeaning

  function StackIn(vars: map<nat, seq<Ref>>, v: nat): seq<Ref> {
    if v in vars then vars[v] else []
  }

  function TopOf(s: seq<Ref>): Option<Ref> {
    if s == [] then None else Some(s[|s| - 1])
  }

  /** The references the first n results of instruction k push for v. */
  ghost function RetRefs(b: nat, k: nat, rets: seq<nat>, n: nat, v: nat): seq<Ref>
    requires n <= |rets|
  {
    if n == 0 then []
    else RetRefs(b, k, rets, n - 1, v) + (if rets[n - 1] == v then [Res(b, k, n - 1)] else [])
  }

  /** The references block b pushes for v before its instruction k. */
  ghost function Pushed(f: Func, phis: seq<set<nat>>, b: nat, k: nat, v: nat): seq<Ref>
    requires b < |f.blocks| == |phis| && k <= |f.blocks[b].insts|
  {
    if k == 0 then (if v in phis[b] then [Phi(b, v)] else [])
    else
      var rets := f.blocks[b].insts[k - 1].rets;
      Pushed(f, phis, b, k - 1, v) + RetRefs(b, k - 1, rets, |rets|, v)
  }

  lemma LastNext(s: seq<nat>, x: nat, v: nat)
    requires v in s + [x]
    ensures Last(s + [x], v) == if x == v then |s| else Last(s, v)
  {
    assert (s + [x])[..|s|] == s;
  }

  lemma {:induction false} RetRefsTop(b: nat, k: nat, rets: seq<nat>, n: nat, v: nat)
    requires n <= |rets|
    ensures v !in rets[..n] ==> RetRefs(b, k, rets, n, v) == []
    ensures v in rets[..n] ==> TopOf(RetRefs(b, k, rets, n, v)) == Some(Res(b, k, Last(rets[..n], v)))
  {
    hide Last;
    if n > 0 {
      RetRefsTop(b, k, rets, n - 1, v);
      assert rets[..n] == rets[..n - 1] + [rets[n - 1]];
      if v in rets[..n] {
        LastNext(rets[..n - 1], rets[n - 1], v);
      }
    }
  }

  /** The top of the stack is the reaching definition. */
  lemma {:induction false} PushedTop(f: Func, t: DomTree, phis: seq<set<nat>>, b: nat, k: nat, v: nat, base: seq<Ref>)
    requires f.Valid() && TreeOf(f.g, t) && |phis| == |f.blocks| && b < |f.blocks| && k <= |f.blocks[b].insts|
    requires TopOf(base) == Inherited(f, t, phis, b, v)
    ensures TopOf(base + Pushed(f, phis, b, k, v)) == TopAt(f, t, phis, b, k, v)
  {
    hide TreeOf, RetRefs, Inherited;
    if k == 0 {
      TopAtEntry(f, t, phis, b, v);
      assert base + [] == base;
    } else {
      PushedTop(f, t, phis, b, k - 1, v, base);
      var rets := f.blocks[b].insts[k - 1].rets;
      RetRefsTop(b, k - 1, rets, |rets|, v);
      assert rets[..|rets|] == rets;
      TopOfMore(base, Pushed(f, phis, b, k - 1, v), RetRefs(b, k - 1, rets, |rets|, v));
    }
  }

  lemma TopOfMore(base: seq<Ref>, x: seq<Ref>, y: seq<Ref>)
    ensures TopOf(base + (x + y)) == if y == [] then TopOf(base + x) else TopOf(y)
  {
    assert base + (x + y) == (base + x) + y;
  }

  // ---------------------------------------------------------------- what has been rewritten

  ghost predicate BodyDone(f: Func, t: DomTree, phis: seq<set<nat>>, done: set<nat>, body0: seq<seq<Inst>>,
                           body: seq<seq<Inst>>)
    requires f.Valid() && TreeOf(f.g, t) && |phis| == |f.blocks|
  {
    && |body| == |body0| == |f.blocks|
    && forall c: nat :: c < |body| ==>
         if c in done then RenamedBlock(f, t, phis, c, body[c], |f.blocks[c].insts|) else body[c] == body0[c]
  }

  ghost predicate ArgsShape(phis: seq<set<nat>>, args: seq<map<nat, map<nat, Operand>>>) {
    |args| == |phis| && forall s: nat :: s < |args| ==> args[s].Keys == phis[s]
  }

  /** Exactly the edges leaving done have been added, with the definition at the end of the block. */
  ghost predicate ArgsDone(f: Func, t: DomTree, phis: seq<set<nat>>, done: set<nat>,
                           args0: seq<map<nat, map<nat, Operand>>>, args: seq<map<nat, map<nat, Operand>>>)
    requires f.Valid() && TreeOf(f.g, t) && |phis| == |f.blocks|
  {
    && ArgsShape(phis, args0) && ArgsShape(phis, args)
    && forall s: nat, v: nat, c: nat :: s < |args| && v in phis[s] ==>
         EntryDone(f, t, phis, done, args0[s][v], args[s][v], s, v, c)
  }

  ghost predicate EntryDone(f: Func, t: DomTree, phis: seq<set<nat>>, done: set<nat>,
                            entry0: map<nat, Operand>, entry: map<nat, Operand>, s: nat, v: nat, c: nat)
    requires f.Valid() && TreeOf(f.g, t) && |phis| == |f.blocks|
  {
    if c in done && c < |f.blocks| && Edge(f.g, c, s) then
      c in entry && entry[c] == AsOperand(Out(f, t, phis, c, v))
    else
      (c in entry <==> c in entry0) && (c in entry ==> entry[c] == entry0[c])
  }

  /** The blocks of done have not been touched yet. */
  ghost predicate Untouched(f: Func, phis: seq<set<nat>>, done: set<nat>, body: seq<seq<Inst>>,
                            args: seq<map<nat, map<nat, Operand>>>)
  {
    && |body| == |f.blocks| && ArgsShape(phis, args)
    && (forall c: nat :: c in done && c < |body| ==> body[c] == f.blocks[c].insts)
    && (forall s: nat, v: nat, c: nat :: s < |args| && v in phis[s] && c in done ==> c !in args[s][v])
  }

  /** Some operand below b has no reaching definition in its dominators. */
  ghost predicate UndefinedUse(f: Func, t: DomTree, phis: seq<set<nat>>, b: nat, k: nat, v: nat)
    requires f.Valid() && TreeOf(f.g, t) && |phis| == |f.blocks|
  {
    && b < |f.blocks| && k < |f.blocks[b].insts|
    && VReg(v) in f.blocks[b].insts[k].args
    && TopAt(f, t, phis, b, k, v) == None
  }

  ghost predicate Tops(f: Func, t: DomTree, phis: seq<set<nat>>, b: nat, k: nat, vars: map<nat, seq<Ref>>)
    requires f.Valid() && TreeOf(f.g, t) && |phis| == |f.blocks| && b < |f.blocks| && k <= |f.blocks[b].insts|
  {
    forall v: nat :: TopOf(StackIn(vars, v)) == TopAt(f, t, phis, b, k, v)
  }

  ghost predicate InheritedTops(f: Func, t: DomTree, phis: seq<set<nat>>, b: nat, vars: map<nat, seq<Ref>>)
    requires f.Valid() && TreeOf(f.g, t) && |phis| == |f.blocks| && b < |f.blocks|
  {
    forall v: nat :: TopOf(StackIn(vars, v)) == Inherited(f, t, phis, b, v)
  }

  ghost predicate StackedOn(f: Func, phis: seq<set<nat>>, b: nat, k: nat, base: map<nat, seq<Ref>>,
                            vars: map<nat, seq<Ref>>)
    requires b < |f.blocks| == |phis| && k <= |f.blocks[b].insts|
  {
    forall v: nat :: StackIn(vars, v) == StackIn(base, v) + Pushed(f, phis, b, k, v)
  }

  ghost predicate SameStacks(vars: map<nat, seq<Ref>>, vars': map<nat, seq<Ref>>) {
    forall v: nat :: StackIn(vars, v) == StackIn(vars', v)
  }

  /** The two bodies differ at most in instruction k of block b. */
  ghost predicate OnlyInst(body0: seq<seq<Inst>>, body: seq<seq<Inst>>, b: nat, k: nat) {
    && b < |body0| == |body| && k < |body0[b]| == |body[b]|
    && (forall c: nat :: c < |body| && c != b ==> body[c] == body0[c])
    && (forall m: nat :: m < |body[b]| && m != k ==> body[b][m] == body0[b][m])
  }

  /** The first k instructions of b have been renamed and nothing else has changed. */
  ghost predicate Halfway(f: Func, t: DomTree, phis: seq<set<nat>>, b: nat, k: nat, body0: seq<seq<Inst>>,
                          body: seq<seq<Inst>>)
    requires f.Valid() && TreeOf(f.g, t) && |phis| == |f.blocks| && b < |f.blocks| && k <= |f.blocks[b].insts|
  {
    && |body| == |body0| == |f.blocks| && |body[b]| == |f.blocks[b].insts|
    && (forall c: nat :: c < |body| && c != b ==> body[c] == body0[c])
    && (forall m: nat :: k <= m < |body[b]| ==> body[b][m] == f.blocks[b].insts[m])
    && RenamedBlock(f, t, phis, b, body[b], k)
  }

  lemma StackedTops(f: Func, t: DomTree, phis: seq<set<nat>>, b: nat, k: nat, base: map<nat, seq<Ref>>,
                    vars: map<nat, seq<Ref>>)
    requires f.Valid() && TreeOf(f.g, t) && |phis| == |f.blocks| && b < |f.blocks| && k <= |f.blocks[b].insts|
    requires InheritedTops(f, t, phis, b, base) && StackedOn(f, phis, b, k, base, vars)
    ensures Tops(f, t, phis, b, k, vars)
  {
    forall v: nat
      ensures TopOf(StackIn(vars, v)) == TopAt(f, t, phis, b, k, v)
    {
      PushedTop(f, t, phis, b, k, v, StackIn(base, v));
    }
  }

  lemma RetPushed(b: nat, k: nat, rets: seq<nat>, i: nat, base: map<nat, seq<Ref>>, vars: map<nat, seq<Ref>>,
                  vars': map<nat, seq<Ref>>)
    requires i < |rets|
    requires forall w: nat :: StackIn(vars, w) == StackIn(base, w) + RetRefs(b, k, rets, i, w)
    requires forall w: nat :: StackIn(vars', w) == StackIn(vars, w) + (if w == rets[i] then [Res(b, k, i)] else [])
    ensures forall w: nat :: StackIn(vars', w) == StackIn(base, w) + RetRefs(b, k, rets, i + 1, w)
  {
    hide StackIn, RetRefs;
    forall w: nat
      ensures StackIn(vars', w) == StackIn(base, w) + RetRefs(b, k, rets, i + 1, w)
    {
      RetRefsNext(b, k, rets, i, w, StackIn(base, w));
    }
  }

  lemma NothingPushed(b: nat, k: nat, rets: seq<nat>, vars: map<nat, seq<Ref>>)
    ensures forall w: nat :: StackIn(vars, w) == StackIn(vars, w) + RetRefs(b, k, rets, 0, w)
  {
  }

  lemma RetRefsNext(b: nat, k: nat, rets: seq<nat>, i: nat, w: nat, base: seq<Ref>)
    requires i < |rets|
    ensures base + RetRefs(b, k, rets, i + 1, w) == (base + RetRefs(b, k, rets, i, w)) +
      (if w == rets[i] then [Res(b, k, i)] else [])
  {
    var x, y := RetRefs(b, k, rets, i, w), if w == rets[i] then [Res(b, k, i)] else [];
    assert RetRefs(b, k, rets, i + 1, w) == x + y;
    assert base + (x + y) == (base + x) + y;
  }

  class Renamer {
    const f: Func
    const t: DomTree
    const phis: seq<set<nat>>
    /** The instructions of every block, rewritten in place. */
    var body: seq<seq<Inst>>
    /** The operands of the placed PHIs. */
    var args: seq<map<nat, map<nat, Operand>>>
    /** The stacks of definitions. */
    var vars: map<nat, seq<Ref>>
    /** The blocks that have been visited. */
    var blocks: set<nat>

    ghost predicate Valid()
      reads this
    {
      && f.Valid() && TreeOf(f.g, t) && |phis| == |f.blocks|
      && |t.kids| == |f.blocks| == |body| && ArgsShape(phis, args)
    }

    constructor (f: Func, t: DomTree, phis: seq<set<nat>>)
      requires f.Valid() && TreeOf(f.g, t) && |phis| == |f.blocks|
      ensures Valid() && this.f == f && this.t == t && this.phis == phis
      ensures vars == map[] && blocks == {}
      ensures forall done :: Untouched(f, phis, done, body, args)
    {
      this.f, this.t, this.phis := f, t, phis;
      body := seq(|f.blocks|, b requires 0 <= b < |f.blocks| => f.blocks[b].insts);
      args := seq(|phis|, b requires 0 <= b < |phis| => map v | v in phis[b] :: map[]);
      vars, blocks := map[], {};
    }

    /** Replaces each register operand of one instruction by the top of its stack. */
    method RenameOperands(b: nat, k: nat) returns (err: Option<nat>)
      requires Valid() && b < |f.blocks| && k < |f.blocks[b].insts|
      requires |body[b]| == |f.blocks[b].insts| && body[b][k] == f.blocks[b].insts[k]
      requires Tops(f, t, phis, b, k, vars)
      modifies this`body
      ensures |body| == |f.blocks| && |body[b]| == |f.blocks[b].insts|
      ensures OnlyInst(old(body), body, b, k)
      ensures err.None? ==> RenamedInst(f, t, phis, b, k, body[b][k], |f.blocks[b].insts[k].args|)
      ensures err.Some? ==> UndefinedUse(f, t, phis, b, k, err.value)
    {
      ghost var body0 := body;
      var n := |f.blocks[b].insts[k].args|;
      for j := 0 to n
        invariant |body| == |f.blocks| && |body[b]| == |f.blocks[b].insts|
        invariant OnlyInst(body0, body, b, k)
        invariant RenamedInst(f, t, phis, b, k, body[b][k], j)
        invariant body[b][k].args[j..] == f.blocks[b].insts[k].args[j..]
      {
        var inst := body[b][k];
        assert inst.args[j] == inst.args[j..][0] == f.blocks[b].insts[k].args[j];
        if inst.args[j].VReg? {
          var stk := StackIn(vars, inst.args[j].v);
          if stk == [] {
            return Some(inst.args[j].v);
          }
          var args' := inst.args[j := Use(stk[|stk| - 1])];
          assert args'[j + 1..] == inst.args[j..][1..];
          body := body[b := body[b][k := inst.(args := args')]];
        }
      }
      err := None;
    }

    method Push(v: nat, r: Ref)
      modifies this`vars
      ensures forall w: nat :: StackIn(vars, w) == StackIn(old(vars), w) + (if w == v then [r] else [])
    {
      vars := vars[v := StackIn(vars, v) + [r]];
    }

    method Pop(v: nat)
      requires StackIn(vars, v) != []
      modifies this`vars
      ensures forall w: nat :: w != v ==> StackIn(vars, w) == StackIn(old(vars), w)
      ensures StackIn(vars, v) == StackIn(old(vars), v)[..|StackIn(old(vars), v)| - 1]
    {
      vars := vars[v := vars[v][..|vars[v]| - 1]];
    }

    method PushRets(b: nat, k: nat, rets: seq<nat>)
      modifies this`vars
      ensures forall w: nat :: StackIn(vars, w) == StackIn(old(vars), w) + RetRefs(b, k, rets, |rets|, w)
    {
      hide StackIn, RetRefs;
      NothingPushed(b, k, rets, vars);
      for i := 0 to |rets|
        invariant forall w: nat :: StackIn(vars, w) == StackIn(old(vars), w) + RetRefs(b, k, rets, i, w)
      {
        ghost var vars1 := vars;
        Push(rets[i], Res(b, k, i));
        RetPushed(b, k, rets, i, old(vars), vars1, vars);
      }
    }

    method PushPhis(b: nat)
      requires Valid() && b < |f.blocks|
      modifies this`vars
      ensures StackedOn(f, phis, b, 0, old(vars), vars)
    {
      var ids := phis[b];
      while ids != {}
        invariant ids <= phis[b]
        invariant forall v: nat ::
          StackIn(vars, v) == StackIn(old(vars), v) + (if v in phis[b] - ids then [Phi(b, v)] else [])
        decreases ids
      {
        var v: nat :| v in ids;
        ghost var vars1 := vars;
        Push(v, Phi(b, v));
        PhiPushed(b, phis[b], ids, v, old(vars), vars1, vars);
        ids := ids - {v};
      }
    }

    /** Pushes the PHIs, then renames and pushes instruction by instruction. */
    method RenameBlock(b: nat) returns (err: Option<nat>)
      requires Valid() && b < |f.blocks| && body[b] == f.blocks[b].insts
      requires InheritedTops(f, t, phis, b, vars)
      modifies this`body, this`vars
      ensures Valid()
      ensures err.None? ==> BodyDone(f, t, phis, {b}, old(body), body)
      ensures err.None? ==> StackedOn(f, phis, b, |f.blocks[b].insts|, old(vars), vars)
      ensures err.Some? ==> exists k :: UndefinedUse(f, t, phis, b, k, err.value)
    {
      hide BodyDone, ArgsShape, TreeOf, Halfway, StackedOn, Tops, InheritedTops, OnlyInst;
      ghost var base, body0 := vars, body;
      PushPhis(b);
      NoneYet(f, t, phis, b, body);
      for k := 0 to |f.blocks[b].insts|
        invariant Valid() && Halfway(f, t, phis, b, k, body0, body)
        invariant StackedOn(f, phis, b, k, base, vars)
      {
        StackedTops(f, t, phis, b, k, base, vars);
        ghost var body1, vars1 := body, vars;
        NotYet(f, t, phis, b, k, body0, body);
        err := RenameOperands(b, k);
        if err.Some? {
          return;
        }
        OneMore(f, t, phis, b, k, body0, body1, body);
        PushRets(b, k, f.blocks[b].insts[k].rets);
        StackGrows(f, phis, b, k, base, vars1, vars);
      }
      WholeBlock(f, t, phis, b, body0, body);
      err := None;
    }

    /** Adds this block's definitions to the PHIs of its successors. */
    method FillSuccessors(b: nat)
      requires Valid() && b < |f.blocks| && Tops(f, t, phis, b, |f.blocks[b].insts|, vars)
      requires NotIn(phis, args, b)
      modifies this`args
      ensures Valid() && ArgsDone(f, t, phis, {b}, old(args), args)
    {
      hide TreeOf, Tops, ArgsDone;
      ghost var args0 := args;
      ghost var done: set<(nat, nat)> := {};
      for i := 0 to |f.g.succs[b]|
        invariant Valid() && FilledPairs(f, t, phis, b, done, args0, args)
        invariant forall j: nat, v: nat :: j < i && f.g.succs[b][j] < |phis| && v in phis[f.g.succs[b][j]] ==>
          (f.g.succs[b][j], v) in done
        invariant forall p :: p in done ==> Edge(f.g, b, p.0)
      {
        var succ: nat := f.g.succs[b][i];
        var ids := phis[succ];
        while ids != {}
          invariant ids <= phis[succ]
          invariant Valid() && FilledPairs(f, t, phis, b, done, args0, args)
          invariant forall j: nat, v: nat :: j < i && f.g.succs[b][j] < |phis| && v in phis[f.g.succs[b][j]] ==>
            (f.g.succs[b][j], v) in done
          invariant forall v :: v in phis[succ] - ids ==> (succ, v) in done
          invariant forall p :: p in done ==> Edge(f.g, b, p.0)
          decreases ids
        {
          var v: nat :| v in ids;
          FillOne(b, succ, v, done, args0);
          done := done + {(succ, v)};
          ids := ids - {v};
        }
      }
      AllFilled(f, t, phis, b, done, args0, args);
    }

    method FillOne(b: nat, succ: nat, v: nat, ghost done: set<(nat, nat)>,
                   ghost args0: seq<map<nat, map<nat, Operand>>>)
      requires Valid() && b < |f.blocks| && Tops(f, t, phis, b, |f.blocks[b].insts|, vars)
      requires succ < |phis| && v in phis[succ]
      requires FilledPairs(f, t, phis, b, done, args0, args)
      modifies this`args
      ensures Valid() && FilledPairs(f, t, phis, b, done + {(succ, v)}, args0, args)
    {
      if b !in args[succ][v] {
        var filled: map<nat, Operand> := args[succ][v][b := AsOperand(TopOf(StackIn(vars, v)))];
        var phi: map<nat, map<nat, Operand>> := args[succ][v := filled];
        args := args[succ := phi];
      }
    }

    /** Pops one definition for each result of an instruction. */
    method PopRets(b: nat, k: nat, rets: seq<nat>, ghost mid: nat -> seq<Ref>)
      requires forall w: nat :: StackIn(vars, w) == mid(w) + RetRefs(b, k, rets, |rets|, w)
      modifies this`vars
      ensures forall w: nat :: StackIn(vars, w) == mid(w)
    {
      hide StackIn, RetRefs;
      NothingPopped(b, k, rets, mid, vars);
      for i := 0 to |rets|
        invariant PoppedTo(b, k, rets, i, mid, vars)
      {
        ghost var vars1 := vars;
        PopNext(b, k, rets, i, mid, vars);
        Pop(rets[i]);
        Popped1(b, k, rets, i, mid, vars1, vars);
      }
      AllPopped(b, k, rets, mid, vars);
    }

    /** Restores the stacks to what they were when block b was entered. */
    method PopBlock(b: nat, ghost base: map<nat, seq<Ref>>)
      requires Valid() && b < |f.blocks| && StackedOn(f, phis, b, |f.blocks[b].insts|, base, vars)
      modifies this`vars
      ensures SameStacks(base, vars)
    {
      hide TreeOf, ArgsShape;
      var k: nat := |f.blocks[b].insts|;
      while k > 0
        invariant k <= |f.blocks[b].insts|
        invariant StackedOn(f, phis, b, k, base, vars)
      {
        k := k - 1;
        ghost var mid := (w: nat) => StackIn(base, w) + Pushed(f, phis, b, k, w);
        Unstack(f, phis, b, k, base, vars, mid);
        PopRets(b, k, f.blocks[b].insts[k].rets, mid);
        assert StackedOn(f, phis, b, k, base, vars);
      }
      var ids := phis[b];
      while ids != {}
        invariant ids <= phis[b]
        invariant forall w: nat :: StackIn(vars, w) == StackIn(base, w) + (if w in ids then [Phi(b, w)] else [])
        decreases ids
      {
        var v: nat :| v in ids;
        ghost var vars1 := vars;
        Pop(v);
        PhiPopped(b, ids, v, base, vars1, vars);
        ids := ids - {v};
      }
      NoPhisLeft(base, vars);
    }

    /** Renames the subtree of the dominator tree below b. */
    method Rename(b: nat) returns (err: Option<nat>)
      requires Valid() && b < |f.blocks| && Reachable(f.g, b)
      requires InheritedTops(f, t, phis, b, vars)
      requires Untouched(f, phis, Subtree(f.g, b), body, args)
      modifies this
      ensures Valid()
      ensures err.None? ==> SameStacks(old(vars), vars) && blocks == old(blocks) + Subtree(f.g, b)
      ensures err.None? ==> BodyDone(f, t, phis, Subtree(f.g, b), old(body), body)
      ensures err.None? ==> ArgsDone(f, t, phis, Subtree(f.g, b), old(args), args)
      ensures err.Some? ==> exists c, k :: c in Subtree(f.g, b) && UndefinedUse(f, t, phis, c, k, err.value)
      decreases Subtree(f.g, b)
    {
      hide TreeOf, ArgsShape, InheritedTops, Untouched, BodyDone, ArgsDone, StackedOn, SameStacks, UndefinedUse,
        Subtree, Tops;
      ghost var vars0, body0, args0 := vars, body, args;
      blocks := blocks + {b};
      SelfInSubtree(f.g, b);
      FirstTouch(f, phis, b, body, args);
      err := RenameBlock(b);
      if err.Some? {
        ghost var k :| UndefinedUse(f, t, phis, b, k, err.value);
        assert b in Subtree(f.g, b) && UndefinedUse(f, t, phis, b, k, err.value);
        return;
      }
      StackedTops(f, t, phis, b, |f.blocks[b].insts|, vars0, vars);
      FillSuccessors(b);
      ghost var vars1 := vars;
      SameStacksRefl(vars);
      for i := 0 to |t.kids[b]|
        invariant Valid() && SameStacks(vars1, vars) && err.None?
        invariant blocks == old(blocks) + Kids(f.g, t, b, i)
        invariant BodyDone(f, t, phis, Kids(f.g, t, b, i), body0, body)
        invariant ArgsDone(f, t, phis, Kids(f.g, t, b, i), args0, args)
      {
        var child: nat := t.kids[b][i];
        ghost var vars2, body2, args2 := vars, body, args;
        KidFacts(f.g, t, b, i);
        KidTops(f, t, phis, b, i, vars0, vars1, vars);
        KidUntouched(f, t, phis, b, i, body0, body, args0, args);
        err := Rename(child);
        if err.Some? {
          ghost var c, k :| c in Subtree(f.g, child) && UndefinedUse(f, t, phis, c, k, err.value);
          assert c in Subtree(f.g, b) && UndefinedUse(f, t, phis, c, k, err.value);
          return;
        }
        SameStacksTrans(vars1, vars2, vars);
        BodyJoins(f, t, phis, Kids(f.g, t, b, i), Subtree(f.g, child), body0, body2, body);
        ArgsJoins(f, t, phis, Kids(f.g, t, b, i), Subtree(f.g, child), args0, args2, args);
      }
      KidsAreSubtree(f.g, t, b);
      StackedAgain(f, phis, b, vars0, vars1, vars);
      PopBlock(b, vars0);
    }
  }

  lemma PhiPushed(b: nat, all: set<nat>, ids: set<nat>, v: nat, base: map<nat, seq<Ref>>, vars: map<nat, seq<Ref>>,
                  vars': map<nat, seq<Ref>>)
    requires ids <= all && v in ids
    requires forall w: nat :: StackIn(vars, w) == StackIn(base, w) + (if w in all - ids then [Phi(b, w)] else [])
    requires forall w: nat :: StackIn(vars', w) == StackIn(vars, w) + (if w == v then [Phi(b, v)] else [])
    ensures forall w: nat ::
      StackIn(vars', w) == StackIn(base, w) + (if w in all - (ids - {v}) then [Phi(b, w)] else [])
  {
    hide StackIn;
    forall w: nat
      ensures StackIn(vars', w) == StackIn(base, w) + (if w in all - (ids - {v}) then [Phi(b, w)] else [])
    {
      assert StackIn(base, w) + [] == StackIn(base, w);
      assert StackIn(vars, w) + [] == StackIn(vars, w);
    }
  }

  lemma NoneYet(f: Func, t: DomTree, phis: seq<set<nat>>, b: nat, body: seq<seq<Inst>>)
    requires f.Valid() && TreeOf(f.g, t) && |phis| == |f.blocks| && b < |f.blocks|
    requires |body| == |f.blocks| && body[b] == f.blocks[b].insts
    ensures Halfway(f, t, phis, b, 0, body, body)
  {
  }

  lemma WholeBlock(f: Func, t: DomTree, phis: seq<set<nat>>, b: nat, body0: seq<seq<Inst>>, body: seq<seq<Inst>>)
    requires f.Valid() && TreeOf(f.g, t) && |phis| == |f.blocks| && b < |f.blocks|
    requires Halfway(f, t, phis, b, |f.blocks[b].insts|, body0, body)
    ensures BodyDone(f, t, phis, {b}, body0, body)
  {
  }

  lemma NotYet(f: Func, t: DomTree, phis: seq<set<nat>>, b: nat, k: nat, body0: seq<seq<Inst>>, body: seq<seq<Inst>>)
    requires f.Valid() && TreeOf(f.g, t) && |phis| == |f.blocks| && b < |f.blocks| && k < |f.blocks[b].insts|
    requires Halfway(f, t, phis, b, k, body0, body)
    ensures |body| == |f.blocks| && |body[b]| == |f.blocks[b].insts| && body[b][k] == f.blocks[b].insts[k]
  {
  }

  lemma OneMore(f: Func, t: DomTree, phis: seq<set<nat>>, b: nat, k: nat, body0: seq<seq<Inst>>, body1: seq<seq<Inst>>,
                body: seq<seq<Inst>>)
    requires f.Valid() && TreeOf(f.g, t) && |phis| == |f.blocks| && b < |f.blocks| && k < |f.blocks[b].insts|
    requires Halfway(f, t, phis, b, k, body0, body1) && OnlyInst(body1, body, b, k)
    requires RenamedInst(f, t, phis, b, k, body[b][k], |f.blocks[b].insts[k].args|)
    ensures Halfway(f, t, phis, b, k + 1, body0, body)
  {
    forall m | 0 <= m < k + 1
      ensures RenamedInst(f, t, phis, b, m, body[b][m], |body[b][m].args|)
    {
      if m < k {
        assert body[b][m] == body1[b][m];
      }
    }
  }

  lemma StackGrows(f: Func, phis: seq<set<nat>>, b: nat, k: nat, base: map<nat, seq<Ref>>, vars: map<nat, seq<Ref>>,
                   vars': map<nat, seq<Ref>>)
    requires b < |f.blocks| == |phis| && k < |f.blocks[b].insts|
    requires StackedOn(f, phis, b, k, base, vars)
    requires var rets := f.blocks[b].insts[k].rets;
      forall w: nat :: StackIn(vars', w) == StackIn(vars, w) + RetRefs(b, k, rets, |rets|, w)
    ensures StackedOn(f, phis, b, k + 1, base, vars')
  {
    hide Pushed, RetRefs;
    var rets := f.blocks[b].insts[k].rets;
    forall w: nat
      ensures StackIn(vars', w) == StackIn(base, w) + Pushed(f, phis, b, k + 1, w)
    {
      PushedNext(f, phis, b, k, w, StackIn(base, w));
    }
  }

  lemma PushedNext(f: Func, phis: seq<set<nat>>, b: nat, k: nat, v: nat, base: seq<Ref>)
    requires b < |f.blocks| == |phis| && k < |f.blocks[b].insts|
    ensures var rets := f.blocks[b].insts[k].rets;
      base + Pushed(f, phis, b, k + 1, v) == (base + Pushed(f, phis, b, k, v)) + RetRefs(b, k, rets, |rets|, v)
  {
    var rets := f.blocks[b].insts[k].rets;
    var x, y := Pushed(f, phis, b, k, v), RetRefs(b, k, rets, |rets|, v);
    assert Pushed(f, phis, b, k + 1, v) == x + y;
    assert base + (x + y) == (base + x) + y;
  }

  // ---------------------------------------------------------------- PHI operands

  ghost predicate NotIn(phis: seq<set<nat>>, args: seq<map<nat, map<nat, Operand>>>, b: nat)
    requires ArgsShape(phis, args)
  {
    forall s: nat, v: nat :: s < |args| && v in phis[s] ==> b !in args[s][v]
  }

  /** Exactly the PHIs in done have received the definition at the end of b. */
  ghost predicate FilledPairs(f: Func, t: DomTree, phis: seq<set<nat>>, b: nat, done: set<(nat, nat)>,
                              args0: seq<map<nat, map<nat, Operand>>>, args: seq<map<nat, map<nat, Operand>>>)
    requires f.Valid() && TreeOf(f.g, t) && |phis| == |f.blocks| && b < |f.blocks|
  {
    && ArgsShape(phis, args0) && ArgsShape(phis, args) && NotIn(phis, args0, b)
    && forall s: nat, v: nat :: s < |args| && v in phis[s] ==>
         args[s][v] == if (s, v) in done then args0[s][v][b := AsOperand(Out(f, t, phis, b, v))] else args0[s][v]
  }

  lemma AllFilled(f: Func, t: DomTree, phis: seq<set<nat>>, b: nat, done: set<(nat, nat)>,
                  args0: seq<map<nat, map<nat, Operand>>>, args: seq<map<nat, map<nat, Operand>>>)
    requires f.Valid() && TreeOf(f.g, t) && |phis| == |f.blocks| && b < |f.blocks|
    requires FilledPairs(f, t, phis, b, done, args0, args)
    requires forall p :: p in done ==> Edge(f.g, b, p.0)
    requires forall j: nat, v: nat :: j < |f.g.succs[b]| && f.g.succs[b][j] < |phis| && v in phis[f.g.succs[b][j]] ==>
      (f.g.succs[b][j], v) in done
    ensures ArgsDone(f, t, phis, {b}, args0, args)
  {
    hide TreeOf;
    forall s: nat, v: nat, c: nat | s < |args| && v in phis[s]
      ensures EntryDone(f, t, phis, {b}, args0[s][v], args[s][v], s, v, c)
    {
      assert (s, v) in done <==> Edge(f.g, b, s);
    }
  }

  // ---------------------------------------------------------------- popping

  lemma {:induction false} RetRefsLength(b: nat, k: nat, rets: seq<nat>, n: nat, w: nat)
    requires n <= |rets|
    ensures |RetRefs(b, k, rets, n, w)| + Count(rets[n..], w) == Count(rets, w)
  {
    if n == 0 {
      assert rets[0..] == rets;
    } else {
      RetRefsLength(b, k, rets, n - 1, w);
      assert rets[n - 1..][1..] == rets[n..];
    }
  }

  /** The results before i have been popped again. */
  ghost predicate PoppedTo(b: nat, k: nat, rets: seq<nat>, i: nat, mid: nat -> seq<Ref>, vars: map<nat, seq<Ref>>)
    requires i <= |rets|
  {
    forall w: nat :: PoppedAt(b, k, rets, i, w, mid(w), StackIn(vars, w))
  }

  ghost predicate PoppedAt(b: nat, k: nat, rets: seq<nat>, i: nat, w: nat, mid: seq<Ref>, stack: seq<Ref>)
    requires i <= |rets|
  {
    var c := Count(rets[i..], w);
    c <= |RetRefs(b, k, rets, |rets|, w)| && stack == mid + RetRefs(b, k, rets, |rets|, w)[..c]
  }

  lemma NothingPopped(b: nat, k: nat, rets: seq<nat>, mid: nat -> seq<Ref>, vars: map<nat, seq<Ref>>)
    requires forall w: nat :: StackIn(vars, w) == mid(w) + RetRefs(b, k, rets, |rets|, w)
    ensures PoppedTo(b, k, rets, 0, mid, vars)
  {
    hide RetRefs, StackIn, Count;
    forall w: nat
      ensures PoppedAt(b, k, rets, 0, w, mid(w), StackIn(vars, w))
    {
      RetRefsLength(b, k, rets, |rets|, w);
      RetRefsLength(b, k, rets, 0, w);
      EmptyCount(rets, w);
      var r := RetRefs(b, k, rets, |rets|, w);
      assert rets[0..] == rets;
      assert r[..|r|] == r;
    }
  }

  lemma EmptyCount(rets: seq<nat>, w: nat)
    ensures Count(rets[|rets|..], w) == 0
  {
  }

  lemma NextCount(rets: seq<nat>, i: nat, w: nat)
    requires i < |rets|
    ensures Count(rets[i..], w) == Count(rets[i + 1..], w) + if rets[i] == w then 1 else 0
  {
    assert rets[i..][1..] == rets[i + 1..];
  }

  lemma PopNext(b: nat, k: nat, rets: seq<nat>, i: nat, mid: nat -> seq<Ref>, vars: map<nat, seq<Ref>>)
    requires i < |rets| && PoppedTo(b, k, rets, i, mid, vars)
    ensures StackIn(vars, rets[i]) != []
  {
    var w := rets[i];
    NextCount(rets, i, w);
    assert PoppedAt(b, k, rets, i, w, mid(w), StackIn(vars, w));
  }

  lemma Popped1(b: nat, k: nat, rets: seq<nat>, i: nat, mid: nat -> seq<Ref>, vars: map<nat, seq<Ref>>,
                vars': map<nat, seq<Ref>>)
    requires i < |rets| && PoppedTo(b, k, rets, i, mid, vars)
    requires StackIn(vars, rets[i]) != []
    requires forall w: nat :: w != rets[i] ==> StackIn(vars', w) == StackIn(vars, w)
    requires StackIn(vars', rets[i]) == StackIn(vars, rets[i])[..|StackIn(vars, rets[i])| - 1]
    ensures PoppedTo(b, k, rets, i + 1, mid, vars')
  {
    hide RetRefs, StackIn, Count;
    forall w: nat
      ensures PoppedAt(b, k, rets, i + 1, w, mid(w), StackIn(vars', w))
    {
      NextCount(rets, i, w);
      assert PoppedAt(b, k, rets, i, w, mid(w), StackIn(vars, w));
      if w == rets[i] {
        var c, r := Count(rets[i..], w), RetRefs(b, k, rets, |rets|, w);
        assert mid(w) + r[..c - 1] == (mid(w) + r[..c])[..|mid(w)| + c - 1];
      }
    }
  }

  lemma AllPopped(b: nat, k: nat, rets: seq<nat>, mid: nat -> seq<Ref>, vars: map<nat, seq<Ref>>)
    requires PoppedTo(b, k, rets, |rets|, mid, vars)
    ensures forall w: nat :: StackIn(vars, w) == mid(w)
  {
    hide RetRefs, StackIn, Count;
    forall w: nat
      ensures StackIn(vars, w) == mid(w)
    {
      EmptyCount(rets, w);
      assert PoppedAt(b, k, rets, |rets|, w, mid(w), StackIn(vars, w));
    }
  }

  lemma Unstack(f: Func, phis: seq<set<nat>>, b: nat, k: nat, base: map<nat, seq<Ref>>, vars: map<nat, seq<Ref>>,
                mid: nat -> seq<Ref>)
    requires b < |f.blocks| == |phis| && k < |f.blocks[b].insts|
    requires StackedOn(f, phis, b, k + 1, base, vars)
    requires forall w: nat :: mid(w) == StackIn(base, w) + Pushed(f, phis, b, k, w)
    ensures var rets := f.blocks[b].insts[k].rets;
      forall w: nat :: StackIn(vars, w) == mid(w) + RetRefs(b, k, rets, |rets|, w)
  {
    hide Pushed, RetRefs, StackIn;
    var rets := f.blocks[b].insts[k].rets;
    forall w: nat
      ensures StackIn(vars, w) == mid(w) + RetRefs(b, k, rets, |rets|, w)
    {
      PushedNext(f, phis, b, k, w, StackIn(base, w));
    }
  }

  lemma PhiPopped(b: nat, ids: set<nat>, v: nat, base: map<nat, seq<Ref>>, vars: map<nat, seq<Ref>>,
                  vars': map<nat, seq<Ref>>)
    requires v in ids
    requires forall w: nat :: StackIn(vars, w) == StackIn(base, w) + (if w in ids then [Phi(b, w)] else [])
    requires forall w: nat :: w != v ==> StackIn(vars', w) == StackIn(vars, w)
    requires StackIn(vars, v) != [] && StackIn(vars', v) == StackIn(vars, v)[..|StackIn(vars, v)| - 1]
    ensures forall w: nat :: StackIn(vars', w) == StackIn(base, w) + (if w in ids - {v} then [Phi(b, w)] else [])
  {
    hide StackIn;
    assert StackIn(vars', v) == StackIn(base, v) + [];
  }

  lemma NoPhisLeft(base: map<nat, seq<Ref>>, vars: map<nat, seq<Ref>>)
    requires forall w: nat :: StackIn(vars, w) == StackIn(base, w) + []
    ensures SameStacks(base, vars)
  {
    hide StackIn;
    forall w: nat
      ensures StackIn(base, w) == StackIn(vars, w)
    {
      assert StackIn(base, w) + [] == StackIn(base, w);
    }
  }

  // ---------------------------------------------------------------- subtrees

  lemma FirstTouch(f: Func, phis: seq<set<nat>>, b: nat, body: seq<seq<Inst>>, args: seq<map<nat, map<nat, Operand>>>)
    requires b in Subtree(f.g, b) && b < |f.blocks|
    requires Untouched(f, phis, Subtree(f.g, b), body, args)
    ensures |body| == |f.blocks| && body[b] == f.blocks[b].insts
    ensures ArgsShape(phis, args) && NotIn(phis, args, b)
  {
  }

  lemma SameStacksRefl(vars: map<nat, seq<Ref>>)
    ensures SameStacks(vars, vars)
  {
  }

  lemma SameStacksTrans(a: map<nat, seq<Ref>>, b: map<nat, seq<Ref>>, c: map<nat, seq<Ref>>)
    requires SameStacks(a, b) && SameStacks(b, c)
    ensures SameStacks(a, c)
  {
  }

  lemma StackedAgain(f: Func, phis: seq<set<nat>>, b: nat, base: map<nat, seq<Ref>>, vars: map<nat, seq<Ref>>,
                     vars': map<nat, seq<Ref>>)
    requires b < |f.blocks| == |phis| && SameStacks(vars, vars')
    requires StackedOn(f, phis, b, |f.blocks[b].insts|, base, vars)
    ensures StackedOn(f, phis, b, |f.blocks[b].insts|, base, vars')
  {
  }

  lemma KidTops(f: Func, t: DomTree, phis: seq<set<nat>>, b: nat, i: nat, base: map<nat, seq<Ref>>,
                vars: map<nat, seq<Ref>>, vars': map<nat, seq<Ref>>)
    requires f.Valid() && TreeOf(f.g, t) && |phis| == |f.blocks| && b < |f.blocks| && i < |t.kids[b]|
    requires Tops(f, t, phis, b, |f.blocks[b].insts|, vars) && SameStacks(vars, vars')
    requires t.kids[b][i] < |f.blocks|
    ensures InheritedTops(f, t, phis, t.kids[b][i], vars')
  {
    var c := t.kids[b][i];
    forall v: nat
      ensures TopOf(StackIn(vars', v)) == Inherited(f, t, phis, c, v)
    {
      assert Inherited(f, t, phis, c, v) == TopAt(f, t, phis, b, |f.blocks[b].insts|, v);
    }
  }

  lemma KidUntouched(f: Func, t: DomTree, phis: seq<set<nat>>, b: nat, i: nat, body0: seq<seq<Inst>>,
                     body: seq<seq<Inst>>,
                     args0: seq<map<nat, map<nat, Operand>>>, args: seq<map<nat, map<nat, Operand>>>)
    requires f.Valid() && TreeOf(f.g, t) && |phis| == |f.blocks| == |t.kids| && b < |f.blocks| && i < |t.kids[b]|
    requires Untouched(f, phis, Subtree(f.g, b), body0, args0)
    requires BodyDone(f, t, phis, Kids(f.g, t, b, i), body0, body)
    requires ArgsDone(f, t, phis, Kids(f.g, t, b, i), args0, args)
    requires Subtree(f.g, t.kids[b][i]) < Subtree(f.g, b)
    requires Subtree(f.g, t.kids[b][i]) !! Kids(f.g, t, b, i)
    ensures Untouched(f, phis, Subtree(f.g, t.kids[b][i]), body, args)
  {
    hide Kids, Subtree, TreeOf, Out;
    var x := t.kids[b][i];
    forall s: nat, v: nat, c: nat | s < |args| && v in phis[s] && c in Subtree(f.g, x)
      ensures c !in args[s][v]
    {
      assert c in Subtree(f.g, b) && c !in Kids(f.g, t, b, i);
      assert EntryDone(f, t, phis, Kids(f.g, t, b, i), args0[s][v], args[s][v], s, v, c);
    }
  }

  lemma BodyJoins(f: Func, t: DomTree, phis: seq<set<nat>>, done: set<nat>, more: set<nat>,
                  body0: seq<seq<Inst>>, body1: seq<seq<Inst>>, body2: seq<seq<Inst>>)
    requires f.Valid() && TreeOf(f.g, t) && |phis| == |f.blocks| && done !! more
    requires BodyDone(f, t, phis, done, body0, body1) && BodyDone(f, t, phis, more, body1, body2)
    ensures BodyDone(f, t, phis, done + more, body0, body2)
  {
    hide TreeOf, RenamedBlock;
  }

  lemma ArgsJoins(f: Func, t: DomTree, phis: seq<set<nat>>, done: set<nat>, more: set<nat>,
                  args0: seq<map<nat, map<nat, Operand>>>, args1: seq<map<nat, map<nat, Operand>>>,
                    args2: seq<map<nat, map<nat, Operand>>>)
    requires f.Valid() && TreeOf(f.g, t) && |phis| == |f.blocks| && done !! more
    requires ArgsDone(f, t, phis, done, args0, args1) && ArgsDone(f, t, phis, more, args1, args2)
    ensures ArgsDone(f, t, phis, done + more, args0, args2)
  {
    hide TreeOf, Out;
    forall s: nat, v: nat, c: nat | s < |args2| && v in phis[s]
      ensures EntryDone(f, t, phis, done + more, args0[s][v], args2[s][v], s, v, c)
    {
      assert EntryDone(f, t, phis, done, args0[s][v], args1[s][v], s, v, c);
      assert EntryDone(f, t, phis, more, args1[s][v], args2[s][v], s, v, c);
    }
  }
}
