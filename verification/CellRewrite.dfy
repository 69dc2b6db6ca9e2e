/** ReplaceObject of passes/mem_to_reg.cpp for one cell: PHIs on the iterated dominance
    frontier of the stores, and a walk over the dominator tree with a stack of definitions. */
module CellRewrite {
  import opened Cfg
  import opened Options
  import opened Ssa
  import opened SsaForm
  import opened CellPromotion
  import opened CellMeaning

  // ---------------------------------------------------------------- placing PHIs

  /** Blocks that define the cell and are not queued have their frontier covered. */
  ghost predicate Placing(f: Func, t: DomTree, c: nat, phis: set<nat>, q: seq<nat>)
    requires f.Valid() && TreeOf(f.g, t)
  {
    && (forall b: nat :: b in q ==> b < |f.blocks|)
    && (forall b :: b in phis ==> b < |f.blocks| && b in t.idom)
    && forall a: nat, b: nat ::
         a < |f.blocks| && Reachable(f.g, a) && Defines(f, phis, c, a) && b < |f.blocks| && b in t.front[a] ==>
           a in q || b in phis
  }

  /** Every PHI is forced: it belongs to every closed placement. */
  ghost predicate Forced(f: Func, t: DomTree, c: nat, phis: set<nat>)
    requires f.Valid() && TreeOf(f.g, t)
  {
    forall s: set<nat> :: Closed(f, t, s, c) ==> phis <= s
  }

  function StoreBlocks(f: Func, c: nat, n: nat): (q: seq<nat>)
    requires n <= |f.blocks|
    ensures forall b: nat :: b in q <==> b < n && HasStore(f.blocks[b].insts, c)
  {
    if n == 0 then [] else
      StoreBlocks(f, c, n - 1) +
      if HasStore(f.blocks[n - 1].insts, c) then [n - 1] else []
  }

  ghost function Free(f: Func, phis: set<nat>): set<nat> {
    set b: nat | b < |f.blocks| && b !in phis
  }

  lemma FreeShrinks(f: Func, before: set<nat>, phis: set<nat>)
    requires before <= phis && forall b :: b in phis ==> b < |f.blocks|
    ensures phis == before || Free(f, phis) < Free(f, before)
  {
    if phis != before {
      var b :| b in phis && b !in before;
      assert b in Free(f, before) && b !in Free(f, phis);
    }
  }

  /** Places a PHI at each block of the iterated dominance frontier. */
  method PlacePhis(f: Func, t: DomTree, c: nat) returns (phis: set<nat>)
    requires f.Valid() && TreeOf(f.g, t) && EntryHasNoPreds(f.g)
    ensures Closed(f, t, phis, c) && Forced(f, t, c, phis)
  {
    hide TreeOf, Closed, Placing, Forced;
    var q := StoreBlocks(f, c, |f.blocks|);
    phis := {};
    StartPlacing(f, t, c, q);
    while q != []
      invariant Placing(f, t, c, phis, q) && Forced(f, t, c, phis)
      invariant forall b :: b in q ==> Defines(f, phis, c, b)
      decreases Free(f, phis), |q|
    {
      var block := q[0];
      QueueHead(f, t, c, phis, q);
      q := q[1..];
      if block == 0 || block in t.idom {
        ghost var before := phis;
        phis, q := PlaceFront(f, t, c, phis, block, q);
        FreeShrinks(f, before, phis);
      } else {
        NotReachable(f, t, c, phis, block, q);
      }
    }
    PlacedAll(f, t, c, phis);
  }

  lemma StartPlacing(f: Func, t: DomTree, c: nat, q: seq<nat>)
    requires f.Valid() && TreeOf(f.g, t) && q == StoreBlocks(f, c, |f.blocks|)
    ensures Placing(f, t, c, {}, q) && Forced(f, t, c, {}) && forall b :: b in q ==> Defines(f, {}, c, b)
  {
  }

  lemma QueueHead(f: Func, t: DomTree, c: nat, phis: set<nat>, q: seq<nat>)
    requires f.Valid() && TreeOf(f.g, t) && Placing(f, t, c, phis, q) && q != []
    ensures q[0] < |f.blocks| && q == [q[0]] + q[1..] && |t.front| == |f.blocks|
  {
    assert q[0] in q;
  }

  lemma NotReachable(f: Func, t: DomTree, c: nat, phis: set<nat>, block: nat, q: seq<nat>)
    requires f.Valid() && TreeOf(f.g, t) && Placing(f, t, c, phis, [block] + q) && block != 0 && block !in t.idom
    ensures Placing(f, t, c, phis, q)
  {
    assert forall b: nat :: b in q ==> b in [block] + q;
  }

  /** The first n frontier blocks of block have PHIs. */
  ghost predicate FrontDone(f: Func, t: DomTree, phis: set<nat>, block: nat, n: nat)
    requires f.Valid() && TreeOf(f.g, t) && block < |f.blocks| && n <= |t.front[block]|
  {
    forall i :: 0 <= i < n ==> t.front[block][i] in phis
  }

  method PlaceFront(f: Func, t: DomTree, c: nat, phis0: set<nat>, block: nat, q0: seq<nat>)
      returns (phis: set<nat>, q: seq<nat>)
    requires f.Valid() && TreeOf(f.g, t) && EntryHasNoPreds(f.g) && block < |f.blocks|
    requires (block == 0 || block in t.idom)
    requires Placing(f, t, c, phis0, [block] + q0) && Forced(f, t, c, phis0) && Defines(f, phis0, c, block)
    requires forall b :: b in q0 ==> Defines(f, phis0, c, b)
    ensures Placing(f, t, c, phis, q) && Forced(f, t, c, phis) && forall b :: b in q ==> Defines(f, phis, c, b)
    ensures phis0 <= phis && (phis == phis0 ==> q == q0)
    ensures forall b :: b in phis ==> b < |f.blocks|
  {
    hide TreeOf, Placing, Forced, FrontDone, Defines, Closed;
    phis, q := phis0, q0;
    FrontShape(f, t, block);
    NoneDone(f, t, phis, block);
    PlacingRange(f, t, c, phis, [block] + q);
    for i := 0 to |t.front[block]|
      invariant Placing(f, t, c, phis, [block] + q) && Forced(f, t, c, phis) && FrontDone(f, t, phis, block, i)
      invariant Defines(f, phis, c, block) && forall b :: b in q ==> Defines(f, phis, c, b)
      invariant phis0 <= phis && (phis == phis0 ==> q == q0)
      invariant forall b :: b in phis ==> b < |f.blocks|
    {
      var front := t.front[block][i];
      ghost var before := phis;
      if front !in phis {
        AddPhi(f, t, c, phis, block, q, i);
        DefinesMore(f, phis, c, front);
        phis := phis + {front};
        q := q + [front];
      }
      OneMore(f, t, before, phis, block, i);
    }
    FrontFinished(f, t, c, phis, block, q);
  }

  lemma FrontShape(f: Func, t: DomTree, block: nat)
    requires f.Valid() && TreeOf(f.g, t) && block < |f.blocks| && (block == 0 || block in t.idom)
    ensures |t.front| == |f.blocks| && Reachable(f.g, block)
  {
    EntryReachable(f.g);
  }

  lemma Sizes(f: Func, t: DomTree)
    requires f.Valid() && TreeOf(f.g, t)
    ensures |t.front| == |t.kids| == |f.blocks|
  {
  }

  lemma NoneDone(f: Func, t: DomTree, phis: set<nat>, block: nat)
    requires f.Valid() && TreeOf(f.g, t) && block < |f.blocks|
    ensures FrontDone(f, t, phis, block, 0)
  {
  }

  lemma OneMore(f: Func, t: DomTree, before: set<nat>, phis: set<nat>, block: nat, i: nat)
    requires f.Valid() && TreeOf(f.g, t) && block < |f.blocks| && i < |t.front[block]|
    requires before <= phis && FrontDone(f, t, before, block, i) && t.front[block][i] in phis
    ensures FrontDone(f, t, phis, block, i + 1)
  {
  }

  lemma FrontBlock(f: Func, t: DomTree, block: nat, i: nat)
    requires f.Valid() && TreeOf(f.g, t) && EntryHasNoPreds(f.g) && block < |f.blocks| && Reachable(f.g, block)
    requires i < |t.front[block]|
    ensures t.front[block][i] < |f.blocks| && t.front[block][i] in t.idom
  {
    var b := t.front[block][i];
    assert b in t.front[block];
    var p: nat :| Reachable(f.g, p) && Edge(f.g, p, b) && Dom(f.g, block, p);
    EdgeReachable(f.g, p, b);
    var r :| RunTo(f.g, r, b);
    RunEndsInRange(f.g, r, b);
  }

  /** A new PHI is queued, and every closed placement has it. */
  lemma AddPhi(f: Func, t: DomTree, c: nat, phis: set<nat>, block: nat, q: seq<nat>, i: nat)
    requires f.Valid() && TreeOf(f.g, t) && EntryHasNoPreds(f.g) && block < |f.blocks| && Reachable(f.g, block)
    requires i < |t.front[block]|
    requires Placing(f, t, c, phis, [block] + q) && Forced(f, t, c, phis) && Defines(f, phis, c, block)
    ensures var front := t.front[block][i];
      front < |f.blocks| && Placing(f, t, c, phis + {front}, [block] + (q + [front])) && Forced(f, t, c, phis + {front})
  {
    hide TreeOf, Dom;
    Sizes(f, t);
    var front := t.front[block][i];
    FrontBlock(f, t, block, i);
    forall a: nat, b: nat | a < |f.blocks| && Reachable(f.g, a) && Defines(f, phis + {front}, c, a) && b < |f.blocks| &&
      b in t.front[a]
      ensures a in [block] + (q + [front]) || b in phis + {front}
    {
      assert a != front ==> Defines(f, phis, c, a);
    }
    assert forall b :: b in [block] + (q + [front]) ==> b in [block] + q || b == front;
    assert forall b :: b in [block] + q ==> b in [block] + (q + [front]);
    forall s: set<nat> | Closed(f, t, s, c)
      ensures phis + {front} <= s
    {
      assert Defines(f, s, c, block);
      assert front in t.front[block];
    }
  }

  lemma FrontFinished(f: Func, t: DomTree, c: nat, phis: set<nat>, block: nat, q: seq<nat>)
    requires f.Valid() && TreeOf(f.g, t) && block < |f.blocks|
    requires Placing(f, t, c, phis, [block] + q) && FrontDone(f, t, phis, block, |t.front[block]|)
    ensures Placing(f, t, c, phis, q)
  {
    assert forall b: nat :: b in q ==> b in [block] + q;
  }

  lemma PlacedAll(f: Func, t: DomTree, c: nat, phis: set<nat>)
    requires f.Valid() && TreeOf(f.g, t) && Placing(f, t, c, phis, [])
    ensures Closed(f, t, phis, c)
  {
  }

  lemma PlacingRange(f: Func, t: DomTree, c: nat, phis: set<nat>, q: seq<nat>)
    requires f.Valid() && TreeOf(f.g, t) && Placing(f, t, c, phis, q)
    ensures forall b :: b in phis ==> b < |f.blocks|
  {
  }

  lemma DefinesMore(f: Func, phis: set<nat>, c: nat, front: nat)
    ensures Defines(f, phis + {front}, c, front)
    ensures forall b: nat :: Defines(f, phis, c, b) ==> Defines(f, phis + {front}, c, b)
  {
  }

  // ---------------------------------------------------------------- rewriting

  /** What the walk works on. */
  datatype Plan = Plan(f: Func, t: DomTree, phis: set<nat>, c: nat)
  {
    ghost predicate Ok() {
      CellForm(f, c) && f.Valid() && TreeOf(f.g, t) && Closed(f, t, phis, c)
    }
  }

  /** The definition made inside b before instruction k. */
  function Local(x: Plan, b: nat, k: nat): Option<Operand>
    requires b < |x.f.blocks| && k <= |x.f.blocks[b].insts|
  {
    if k == 0 then (if b in x.phis then Some(Use(Phi(b, x.c))) else None)
    else
      var inst := x.f.blocks[b].insts[k - 1];
      if IsStore(inst, x.c) && |inst.args| == 1 then Some(inst.args[0]) else Local(x, b, k - 1)
  }

  lemma {:induction false} LocalOrInherited(x: Plan, b: nat, k: nat)
    requires x.Ok() && b < |x.f.blocks| && k <= |x.f.blocks[b].insts|
    ensures TopAt(x.f, x.t, x.phis, x.c, b, k) ==
      if Local(x, b, k).Some? then Local(x, b, k) else Inherited(x.f, x.t, x.phis, x.c, b)
  {
    hide Plan.Ok;
    PlanShape(x);
    if k == 0 {
      assert TopAt(x.f, x.t, x.phis, x.c, b, 0) == Top(x.f, x.t, x.phis, x.c, b);
    } else {
      LocalOrInherited(x, b, k - 1);
    }
  }

  lemma PlanShape(x: Plan)
    requires x.Ok()
    ensures x.f.Valid() && TreeOf(x.f.g, x.t) && |x.t.kids| == |x.f.blocks|
  {
  }

  lemma PlanInst(x: Plan, b: nat, k: nat)
    requires x.Ok() && b < |x.f.blocks| && k < |x.f.blocks[b].insts|
    ensures CellInst(x.f.blocks[b].insts[k], x.c)
  {
    assert CellBlock(x.f, x.c, b);
  }

  /** The top of the stack is the definition inherited from the dominators. */
  ghost predicate StackIs(stack: seq<Operand>, top: Option<Operand>) {
    if stack == [] then top.None? else top == Some(stack[|stack| - 1])
  }

  /** The blocks of d have been rewritten, the others not. */
  ghost predicate Rewritten(x: Plan, insts: seq<seq<Inst>>, d: set<nat>)
    requires x.Ok()
  {
    && |insts| == |x.f.blocks|
    && forall b: nat :: b < |insts| ==>
         if b in d then PromotedInsts(x.f, x.t, x.phis, x.c, b, insts[b]) else insts[b] == x.f.blocks[b].insts
  }

  /** The PHIs have their operands for the predecessors in d. */
  ghost predicate Filled(x: Plan, args: map<nat, map<nat, Operand>>, d: set<nat>)
    requires x.Ok()
  {
    && args.Keys == x.phis
    && forall s: nat, p: nat :: s in x.phis ==> FilledAt(x, args[s], d, s, p)
  }

  ghost predicate FilledAt(x: Plan, operands: map<nat, Operand>, d: set<nat>, s: nat, p: nat)
    requires x.Ok()
  {
    && (p in operands <==> p in d && p < |x.f.blocks| && Edge(x.f.g, p, s))
    && (p in operands ==> p < |x.f.blocks| && operands[p] == OrUndef(Out(x.f, x.t, x.phis, x.c, p)))
  }

  /** The first n instructions of b have been rewritten. */
  ghost predicate BlockTo(x: Plan, b: nat, insts: seq<Inst>, n: nat)
    requires x.Ok() && b < |x.f.blocks|
  {
    && n <= |insts| == |x.f.blocks[b].insts|
    && (forall k: nat :: k < n ==> insts[k] == PromotedInst(x.f, x.t, x.phis, x.c, b, k))
    && (forall k: nat :: n <= k < |insts| ==> insts[k] == x.f.blocks[b].insts[k])
  }

  lemma BlockStep(x: Plan, b: nat, insts: seq<Inst>, n: nat, inst: Inst)
    requires x.Ok() && b < |x.f.blocks| && BlockTo(x, b, insts, n) && n < |insts|
    requires inst == PromotedInst(x.f, x.t, x.phis, x.c, b, n)
    ensures BlockTo(x, b, insts[n := inst], n + 1)
  {
    hide Plan.Ok, PromotedInst;
  }

  class CellRewriter {
    ghost const x: Plan
    const t: DomTree
    const c: nat
    const g: Graph
    const phis: set<nat>
    /** The body of the function, rewritten in place. */
    var insts: seq<seq<Inst>>
    /** The operands of the new PHIs. */
    var args: map<nat, map<nat, Operand>>
    /** The stack of definitions. */
    var stack: seq<Operand>

    constructor (f: Func, t: DomTree, phis: set<nat>, c: nat)
      requires Plan(f, t, phis, c).Ok()
      ensures x == Plan(f, t, phis, c) && Shape() && Rewritten(x, insts, {}) && Filled(x, args, {}) && stack == []
    {
      x := Plan(f, t, phis, c);
      this.t, this.c, this.g, this.phis := t, c, f.g, phis;
      insts := seq(|f.blocks|, b requires 0 <= b < |f.blocks| => f.blocks[b].insts);
      args := map b: nat | b in phis :: map[];
      stack := [];
    }

    ghost predicate Shape() {
      x.Ok() && x.t == t && x.c == c && x.f.g == g && x.phis == phis
    }

    /** Rewrites the loads and stores of a block; definition is the last one made in it. */
    method RewriteBlock(b: nat, ghost d: set<nat>) returns (definition: Option<Operand>)
      requires Shape() && Rewritten(x, insts, d) && b < |x.f.blocks| && b !in d
      requires StackIs(stack, Inherited(x.f, x.t, x.phis, x.c, b))
      modifies this`insts
      ensures Rewritten(x, insts, d + {b})
      ensures definition == Local(x, b, |x.f.blocks[b].insts|)
    {
      hide Plan.Ok, PromotedInst, BlockTo;
      definition := if b in phis then Some(Use(Phi(b, c))) else None;
      ghost var insts0 := insts;
      BlockStart(x, b, insts[b]);
      for k := 0 to |insts[b]|
        invariant |insts| == |insts0| && insts == insts0[b := insts[b]] && |insts[b]| == |x.f.blocks[b].insts|
        invariant BlockTo(x, b, insts[b], k) && definition == Local(x, b, k)
      {
        BlockRest(x, b, insts[b], k);
        var inst := insts[b][k];
        PlanInst(x, b, k);
        LocalOrInherited(x, b, k);
        if IsLoad(inst, c) {
          var a := if definition.Some? then definition.value else if stack == [] then Undef else stack[|stack| - 1];
          LoadPromoted(x, b, k, a);
          BlockStep(x, b, insts[b], k, inst.(args := [a]));
          insts := insts[b := insts[b][k := inst.(args := [a])]];
        } else if IsStore(inst, c) {
          definition := Some(inst.args[0]);
          StorePromoted(x, b, k);
          BlockStep(x, b, insts[b], k, inst.(rets := []));
          insts := insts[b := insts[b][k := inst.(rets := [])]];
        } else {
          OtherPromoted(x, b, k);
          BlockStep(x, b, insts[b], k, inst);
          assert insts[b][k := inst] == insts[b];
        }
      }
      BlockFinished(x, b, insts[b]);
    }

    /** Adds the current definition to the PHIs of the successors. */
    method FillSuccessors(b: nat, ghost d: set<nat>)
      requires Shape() && Filled(x, args, d) && b < |x.f.blocks| && StackIs(stack, Out(x.f, x.t, x.phis, x.c, b))
      modifies this`args
      ensures Filled(x, args, d + {b})
    {
      hide Plan.Ok, Filled, Out, TreeOf;
      FilledShape(x, args, d);
      PlanShape(x);
      var rest := set s | s in g.succs[b];
      ghost var args0 := args;
      var a := if stack == [] then Undef else stack[|stack| - 1];
      while rest != {}
        invariant args.Keys == phis && rest <= set s | s in g.succs[b]
        invariant forall s, p :: s in phis && p != b ==>
          (p in args[s] <==> p in args0[s]) && (p in args[s] ==> args[s][p] == args0[s][p])
        invariant forall s :: s in phis && s in g.succs[b] && s !in rest ==> b in args[s] && args[s][b] == a
        invariant forall s :: s in phis && s !in g.succs[b] ==> args[s] == args0[s]
        decreases rest
      {
        var s: nat :| s in rest;
        if s in phis {
          var operands: map<nat, Operand> := args[s];
          args := args[s := operands[b := a]];
        }
        rest := rest - {s};
      }
      FilledMore(x, args0, args, d, b, a);
    }

    /** Rewrites b and the blocks below it; the stack of definitions is restored. */
    method Rewrite(b: nat, ghost d: set<nat>)
      requires Shape() && Rewritten(x, insts, d) && Filled(x, args, d)
      requires b < |x.f.blocks| && Reachable(x.f.g, b) && d !! Subtree(x.f.g, b)
      requires StackIs(stack, Inherited(x.f, x.t, x.phis, x.c, b))
      modifies this
      ensures Rewritten(x, insts, d + Subtree(x.f.g, b)) && Filled(x, args, d + Subtree(x.f.g, b))
      ensures stack == old(stack)
      decreases Subtree(x.f.g, b)
    {
      hide Plan.Ok, Rewritten, Filled, Local, Kids, Subtree;
      PlanShape(x);
      SelfInSubtree(x.f.g, b);
      var definition := RewriteBlock(b, d);
      LocalOrInherited(x, b, |x.f.blocks[b].insts|);
      if definition.Some? {
        stack := stack + [definition.value];
      }
      ghost var pushed := stack;
      FillSuccessors(b, d);
      NoKids(x.f.g, t, b);
      for i := 0 to |t.kids[b]|
        invariant Rewritten(x, insts, d + Kids(x.f.g, t, b, i)) && Filled(x, args, d + Kids(x.f.g, t, b, i))
        invariant stack == pushed
      {
        KidFacts(x.f.g, t, b, i);
        KidInherits(x, b, i);
        assert d !! Subtree(x.f.g, t.kids[b][i]);
        Rewrite(t.kids[b][i], d + Kids(x.f.g, t, b, i));
        NextKid(x.f.g, t, b, i);
        assert d + Kids(x.f.g, t, b, i) + Subtree(x.f.g, t.kids[b][i]) == d + Kids(x.f.g, t, b, i + 1);
      }
      KidsAreSubtree(x.f.g, t, b);
      if definition.Some? {
        stack := stack[..|stack| - 1];
      }
    }
  }

  lemma NoKids(g: Graph, t: DomTree, b: nat)
    requires b < |t.kids|
    ensures Kids(g, t, b, 0) == {b}
  {
  }

  lemma NextKid(g: Graph, t: DomTree, b: nat, i: nat)
    requires b < |t.kids| && i < |t.kids[b]|
    ensures Kids(g, t, b, i + 1) == Kids(g, t, b, i) + Subtree(g, t.kids[b][i])
  {
  }

  lemma KidInherits(x: Plan, b: nat, i: nat)
    requires x.Ok() && b < |x.f.blocks| && b < |x.t.kids| && i < |x.t.kids[b]|
    ensures x.t.kids[b][i] < |x.f.blocks|
    ensures Inherited(x.f, x.t, x.phis, x.c, x.t.kids[b][i]) == Out(x.f, x.t, x.phis, x.c, b)
  {
    KidFacts(x.f.g, x.t, b, i);
  }

  lemma BlockStart(x: Plan, b: nat, insts: seq<Inst>)
    requires x.Ok() && b < |x.f.blocks| && insts == x.f.blocks[b].insts
    ensures BlockTo(x, b, insts, 0)
  {
  }

  lemma BlockRest(x: Plan, b: nat, insts: seq<Inst>, k: nat)
    requires x.Ok() && b < |x.f.blocks| && BlockTo(x, b, insts, k) && k < |insts|
    ensures k < |x.f.blocks[b].insts| && insts[k] == x.f.blocks[b].insts[k]
  {
  }

  lemma BlockFinished(x: Plan, b: nat, insts: seq<Inst>)
    requires x.Ok() && b < |x.f.blocks| && BlockTo(x, b, insts, |insts|)
    ensures PromotedInsts(x.f, x.t, x.phis, x.c, b, insts)
  {
  }

  lemma LoadPromoted(x: Plan, b: nat, k: nat, a: Operand)
    requires x.Ok() && b < |x.f.blocks| && k < |x.f.blocks[b].insts| && IsLoad(x.f.blocks[b].insts[k], x.c)
    requires a == OrUndef(TopAt(x.f, x.t, x.phis, x.c, b, k))
    ensures PromotedInst(x.f, x.t, x.phis, x.c, b, k) == x.f.blocks[b].insts[k].(args := [a])
    ensures Local(x, b, k + 1) == Local(x, b, k)
  {
    PlanInst(x, b, k);
  }

  lemma StorePromoted(x: Plan, b: nat, k: nat)
    requires x.Ok() && b < |x.f.blocks| && k < |x.f.blocks[b].insts| && IsStore(x.f.blocks[b].insts[k], x.c)
    ensures PromotedInst(x.f, x.t, x.phis, x.c, b, k) == x.f.blocks[b].insts[k].(rets := [])
    ensures |x.f.blocks[b].insts[k].args| == 1 && Local(x, b, k + 1) == Some(x.f.blocks[b].insts[k].args[0])
  {
    PlanInst(x, b, k);
  }

  lemma OtherPromoted(x: Plan, b: nat, k: nat)
    requires x.Ok() && b < |x.f.blocks| && k < |x.f.blocks[b].insts|
    requires !IsLoad(x.f.blocks[b].insts[k], x.c) && !IsStore(x.f.blocks[b].insts[k], x.c)
    ensures PromotedInst(x.f, x.t, x.phis, x.c, b, k) == x.f.blocks[b].insts[k]
    ensures Local(x, b, k + 1) == Local(x, b, k)
  {
  }

  lemma FilledShape(x: Plan, args: map<nat, map<nat, Operand>>, d: set<nat>)
    requires x.Ok() && Filled(x, args, d)
    ensures args.Keys == x.phis
  {
  }

  lemma FilledMore(x: Plan, args0: map<nat, map<nat, Operand>>, args: map<nat, map<nat, Operand>>, d: set<nat>, b: nat,
                   a: Operand)
    requires x.Ok() && Filled(x, args0, d) && b < |x.f.blocks| && args.Keys == x.phis
    requires a == OrUndef(Out(x.f, x.t, x.phis, x.c, b))
    requires forall s, p :: s in x.phis && p != b ==>
      (p in args[s] <==> p in args0[s]) && (p in args[s] ==> args[s][p] == args0[s][p])
    requires forall s :: s in x.phis && s in x.f.g.succs[b] ==> b in args[s] && args[s][b] == a
    requires forall s :: s in x.phis && s !in x.f.g.succs[b] ==> args[s] == args0[s]
    ensures Filled(x, args, d + {b})
  {
    hide Plan.Ok, Out, TreeOf;
    PlanShape(x);
    forall s: nat, p: nat | s in x.phis
      ensures FilledAt(x, args[s], d + {b}, s, p)
    {
      assert FilledAt(x, args0[s], d, s, p);
      if p == b {
        assert Edge(x.f.g, b, s) <==> s in x.f.g.succs[b];
      }
    }
  }

  // ---------------------------------------------------------------- the pass on one cell

  function Assembled(f: Func, c: nat, phis: set<nat>, insts: seq<seq<Inst>>,
                     args: map<nat, map<nat, Operand>>): (g: Func)
    requires |insts| == |f.blocks| && args.Keys == phis
    ensures g.g == f.g && |g.blocks| == |f.blocks|
  {
    f.(blocks := seq(|f.blocks|, b requires 0 <= b < |f.blocks| =>
      Block(if b in phis then f.blocks[b].phis[c := args[b]] else f.blocks[b].phis, insts[b])))
  }

  lemma AssembledOk(x: Plan, insts: seq<seq<Inst>>, args: map<nat, map<nat, Operand>>)
    requires x.Ok() && Rewritten(x, insts, Subtree(x.f.g, 0)) && Filled(x, args, Subtree(x.f.g, 0))
    ensures |insts| == |x.f.blocks| && args.Keys == x.phis
    ensures Ctx(x.f, x.t, x.phis, x.c, Assembled(x.f, x.c, x.phis, insts, args)).Ok()
  {
    hide Plan.Ok, PromotedInsts, PromotedPhis;
    var g := Assembled(x.f, x.c, x.phis, insts, args);
    PlanShape(x);
    forall b: nat | b < |x.f.blocks|
      ensures PromotedBlock(x.f, x.t, x.phis, x.c, b, g.blocks[b]) && |g.blocks[b].insts| > 0
    {
      AssembledBlock(x, insts, args, b);
    }
    PlanDone(x, g);
  }

  lemma PlanDone(x: Plan, g: Func)
    requires x.Ok() && x.f.Valid() && TreeOf(x.f.g, x.t) && IsPromoted(x.f, x.t, x.phis, x.c, g)
    requires forall b: nat :: b < |g.blocks| ==> |g.blocks[b].insts| > 0
    ensures Ctx(x.f, x.t, x.phis, x.c, g).Ok()
  {
  }

  lemma AssembledBlock(x: Plan, insts: seq<seq<Inst>>, args: map<nat, map<nat, Operand>>, b: nat)
    requires x.Ok() && Rewritten(x, insts, Subtree(x.f.g, 0)) && Filled(x, args, Subtree(x.f.g, 0)) && b < |x.f.blocks|
    ensures |insts| == |x.f.blocks| && args.Keys == x.phis
    ensures var g := Assembled(x.f, x.c, x.phis, insts, args);
      x.f.Valid() && TreeOf(x.f.g, x.t) && PromotedBlock(x.f, x.t, x.phis, x.c, b, g.blocks[b]) &&
        |g.blocks[b].insts| > 0
  {
    hide Plan.Ok, TreeOf, Filled, PromotedInst, Subtree, Out;
    FilledShape(x, args, Subtree(x.f.g, 0));
    PlanShape(x);
    NoOldPhi(x, b);
    InEntrySubtree(x, b);
    if b in x.phis {
      InPhis(x, b);
      AllOperands(x, args, b);
    }
  }

  lemma NoOldPhi(x: Plan, b: nat)
    requires x.Ok() && b < |x.f.blocks|
    ensures x.c !in x.f.blocks[b].phis
  {
    assert CellBlock(x.f, x.c, b);
  }

  /** In the end a PHI has an operand for each reachable predecessor. */
  lemma AllOperands(x: Plan, args: map<nat, map<nat, Operand>>, b: nat)
    requires x.Ok() && Filled(x, args, Subtree(x.f.g, 0)) && b in x.phis
    ensures forall p: nat :: p in args[b] <==> p < |x.f.blocks| && Reachable(x.f.g, p) && Edge(x.f.g, p, b)
    ensures forall p: nat :: p in args[b] ==> p < |x.f.blocks| && args[b][p] == OrUndef(Out(x.f, x.t, x.phis, x.c, p))
  {
    hide Plan.Ok, Out, TreeOf;
    PlanShape(x);
    forall p: nat
      ensures p in args[b] <==> p < |x.f.blocks| && Reachable(x.f.g, p) && Edge(x.f.g, p, b)
      ensures p in args[b] ==> p < |x.f.blocks| && args[b][p] == OrUndef(Out(x.f, x.t, x.phis, x.c, p))
    {
      assert FilledAt(x, args[b], Subtree(x.f.g, 0), b, p);
      if p < |x.f.blocks| {
        InEntrySubtree(x, p);
      }
    }
  }

  lemma InEntrySubtree(x: Plan, b: nat)
    requires x.Ok() && b < |x.f.blocks|
    ensures b in Subtree(x.f.g, 0) <==> Reachable(x.f.g, b)
  {
    EntryReachable(x.f.g);
  }

  lemma InPhis(x: Plan, b: nat)
    requires x.Ok() && b in x.phis
    ensures Reachable(x.f.g, b) && b != 0
  {
  }

  /** Promotes one cell: runs that load only initialised cells do not change, and every
      definition still dominates its uses. */
  method ReplaceCell(f: Func, t: DomTree, c: nat) returns (g: Func)
    requires CellForm(f, c) && f.Valid() && TreeOf(f.g, t)
    ensures g.Valid() && g.g == f.g && DefsDominateUses(g)
    ensures SameMeaning(f, g)
    ensures exists phis: set<nat> :: Ctx(f, t, phis, c, g).Ok() && Forced(f, t, c, phis)
  {
    hide TreeOf, CellForm, Closed, Forced, SameMeaning, DefsDominateUses, Rewritten, Filled;
    CellFormValid(f, c);
    var phis := PlacePhis(f, t, c);
    ghost var x := Plan(f, t, phis, c);
    EntryReachable(f.g);
    var rewriter := new CellRewriter(f, t, phis, c);
    EntryInherits(x);
    rewriter.Rewrite(0, {});
    assert {} + Subtree(f.g, 0) == Subtree(f.g, 0);
    AssembledOk(x, rewriter.insts, rewriter.args);
    g := Assembled(f, c, phis, rewriter.insts, rewriter.args);
    ghost var ctx := Ctx(f, t, phis, c, g);
    PromotionKeepsDominance(ctx);
    PromotionPreservesMeaning(ctx);
  }

  lemma EntryInherits(x: Plan)
    requires x.Ok()
    ensures Inherited(x.f, x.t, x.phis, x.c, 0) == None
  {
  }

  // ---------------------------------------------------------------- the other cells

  /** Promoting one cell leaves the others as they were. */
  lemma KeepsOtherCells(x: Ctx, c: nat)
    requires x.Ok() && c != x.c && CellForm(x.f, c)
    ensures CellForm(x.g, c)
  {
    hide Ctx.Done, TreeOf, CellForm, DefsDominateUses, CellBlock;
    PromotionKeepsDominance(x);
    CellFormValid(x.f, c);
    DoneForm(x);
    EntryReachable(x.f.g);
    PhisOfBlock(x, 0);
    EntryHasNoPhi(x);
    forall b: nat | b < |x.g.blocks|
      ensures CellBlock(x.g, c, b)
    {
      OtherBlock(x, c, b);
    }
    assert x.g.blocks[0].phis == map[];
    IsCellForm(x.g, c);
  }

  lemma IsCellForm(f: Func, c: nat)
    requires f.Valid() && EntryHasNoPreds(f.g) && f.blocks[0].phis == map[] && DefsDominateUses(f)
    requires forall b: nat :: b < |f.blocks| ==> CellBlock(f, c, b)
    ensures CellForm(f, c)
  {
  }

  lemma EntryHasNoPhi(x: Ctx)
    requires x.Ok()
    ensures 0 !in x.phis && x.f.blocks[0].phis == map[]
  {
  }

  lemma SameCellRefs(x: Ctx, c: nat, r: Ref)
    requires x.Ok() && c != x.c && CellForm(x.f, c)
    ensures CellRef(x.g, c, r) ==> CellRef(x.f, c, r)
  {
    hide Ctx.Done, TreeOf, DefsDominateUses;
    if r.Res? && r.b < |x.f.blocks| {
      BlockShape(x, r.b);
    }
  }

  /** The instructions of a block, reachable or not. */
  lemma BlockShape(x: Ctx, b: nat)
    requires x.Ok() && b < |x.f.blocks|
    ensures PromotedBlock(x.f, x.t, x.phis, x.c, b, x.g.blocks[b]) && CellBlock(x.f, x.c, b)
  {
  }

  lemma TopOfOther(x: Ctx, c: nat, b: nat, k: nat)
    requires x.Ok() && c != x.c && CellForm(x.f, c) && b < |x.f.blocks| && k <= |x.f.blocks[b].insts|
    requires Reachable(x.f.g, b)
    ensures var a := OrUndef(TopAt(x.f, x.t, x.phis, x.c, b, k)); NotCell(x.f, c, a) && !a.VReg?
    decreases Dominators(x.f.g, b), k
  {
    hide Ctx.Done, TreeOf, DefsDominateUses, Dom, CellForm;
    if k > 0 {
      BlockShape(x, b);
      CellBlockOf(x.f, c, b);
      if !IsStore(x.f.blocks[b].insts[k - 1], x.c) {
        TopOfOther(x, c, b, k - 1);
      }
    } else {
      TopAtEntry(x.f, x.t, x.phis, x.c, b);
      if b !in x.phis && b in x.t.idom {
        IdomDominates(x.f.g, x.t, b);
        DominatorsShrink(x.f.g, x.t.idom[b], b);
        TopOfOther(x, c, x.t.idom[b], |x.f.blocks[x.t.idom[b]].insts|);
      }
    }
  }

  lemma CellBlockOf(f: Func, c: nat, b: nat)
    requires CellForm(f, c) && b < |f.blocks|
    ensures CellBlock(f, c, b)
  {
  }

  lemma OtherBlock(x: Ctx, c: nat, b: nat)
    requires x.Ok() && c != x.c && CellForm(x.f, c) && b < |x.f.blocks|
    ensures CellBlock(x.g, c, b)
  {
    hide Ctx.Done, TreeOf, DefsDominateUses, Dom, CellForm, CellRef;
    BlockShape(x, b);
    CellBlockOf(x.f, c, b);
    forall r
      ensures CellRef(x.g, c, r) ==> CellRef(x.f, c, r)
    {
      SameCellRefs(x, c, r);
    }
    if Reachable(x.f.g, b) {
      forall k: nat | k < |x.g.blocks[b].insts|
        ensures CellInst(x.g.blocks[b].insts[k], c)
        ensures forall j: nat :: j < |x.g.blocks[b].insts[k].args| ==> NotCell(x.g, c, x.g.blocks[b].insts[k].args[j])
      {
        TopOfOther(x, c, b, k);
      }
      forall id, p | id in x.g.blocks[b].phis && p in x.g.blocks[b].phis[id]
        ensures NotCell(x.g, c, x.g.blocks[b].phis[id][p]) && !x.g.blocks[b].phis[id][p].VReg?
      {
        if id == x.c {
          TopOfOther(x, c, p, |x.f.blocks[p].insts|);
        }
      }
    }
  }

  // ---------------------------------------------------------------- no cell is left unread

  predicate CompleteOrCell(f: Func, cells: set<nat>, inst: Inst, a: Operand) {
    CompleteArg(f, a) || UndefMove(inst) || (a.VReg? && a.v in cells)
  }

  ghost predicate CompleteBlockBut(f: Func, cells: set<nat>, b: nat)
    requires b < |f.blocks|
  {
    && (forall k: nat, j: nat :: k < |f.blocks[b].insts| && j < |f.blocks[b].insts[k].args| ==>
          CompleteOrCell(f, cells, f.blocks[b].insts[k], f.blocks[b].insts[k].args[j]))
    && (forall id, p: nat :: id in f.blocks[b].phis && p in f.blocks[b].phis[id] && IsPred(f.g, p, b) ==>
          CompleteArg(f, f.blocks[b].phis[id][p]) || f.blocks[b].phis[id][p] == Undef)
  }

  /** Operands name existing results, immediates or the cells given. */
  ghost predicate CompleteBut(f: Func, cells: set<nat>)
    requires f.Valid()
  {
    && f.blocks[0].phis == map[]
    && forall b: nat :: b < |f.blocks| && Reachable(f.g, b) ==> CompleteBlockBut(f, cells, b)
  }

  lemma NoCellsComplete(f: Func)
    requires f.Valid() && CompleteBut(f, {})
    ensures Complete(f)
  {
    forall b: nat | b < |f.blocks| && Reachable(f.g, b)
      ensures CompleteBlock(f, b)
    {
      assert CompleteBlockBut(f, {}, b);
    }
  }

  /** What names a result before names one afterwards. */
  lemma ResultStays(x: Ctx, a: Operand)
    requires x.Ok() && CompleteArg(x.f, a) && NotCell(x.f, x.c, a)
    ensures CompleteArg(x.g, a)
  {
    hide Ctx.Done, TreeOf;
    if a.Use? {
      BlockShape(x, a.r.b);
    }
  }

  /** The current definition names a result, or nothing. */
  lemma {:induction false} TopComplete(x: Ctx, cells: set<nat>, b: nat, k: nat)
    requires x.Ok() && x.f.Valid() && CompleteBut(x.f, cells)
    requires b < |x.f.blocks| && k <= |x.f.blocks[b].insts| && Reachable(x.f.g, b)
    ensures var a := OrUndef(TopAt(x.f, x.t, x.phis, x.c, b, k)); a == Undef || CompleteArg(x.g, a)
    decreases Dominators(x.f.g, b), k
  {
    hide Ctx.Done, TreeOf, CompleteBut, CompleteArg, Dom;
    if k > 0 {
      if IsStore(x.f.blocks[b].insts[k - 1], x.c) {
        StoredComplete(x, cells, b, k - 1);
      } else {
        TopComplete(x, cells, b, k - 1);
      }
    } else {
      TopAtEntry(x.f, x.t, x.phis, x.c, b);
      if b in x.phis {
        OwnPhiComplete(x, b);
      } else if b in x.t.idom {
        IdomDominates(x.f.g, x.t, b);
        DominatorsShrink(x.f.g, x.t.idom[b], b);
        TopComplete(x, cells, x.t.idom[b], |x.f.blocks[x.t.idom[b]].insts|);
      }
    }
  }

  lemma OwnPhiComplete(x: Ctx, b: nat)
    requires x.Ok() && b in x.phis && b < |x.f.blocks| && Reachable(x.f.g, b)
    ensures CompleteArg(x.g, Use(Phi(b, x.c)))
  {
    hide Ctx.Done, TreeOf;
    PhisOfBlock(x, b);
  }

  lemma StoredComplete(x: Ctx, cells: set<nat>, b: nat, k: nat)
    requires x.Ok() && x.f.Valid() && CompleteBut(x.f, cells)
    requires b < |x.f.blocks| && k < |x.f.blocks[b].insts| && Reachable(x.f.g, b)
    requires IsStore(x.f.blocks[b].insts[k], x.c)
    ensures |x.f.blocks[b].insts[k].args| == 1
    ensures var a := x.f.blocks[b].insts[k].args[0]; a == Undef || CompleteArg(x.g, a)
  {
    hide Ctx.Done, TreeOf, CompleteArg, NotCell;
    BlockOfCell(x, b, k);
    assert CompleteBlockBut(x.f, cells, b);
    var a := x.f.blocks[b].insts[k].args[0];
    assert CompleteOrCell(x.f, cells, x.f.blocks[b].insts[k], a);
    if CompleteArg(x.f, a) {
      ResultStays(x, a);
    }
  }

  lemma InstComplete(x: Ctx, cells: set<nat>, b: nat, k: nat)
    requires x.Ok() && x.f.Valid() && CompleteBut(x.f, cells)
    requires b < |x.f.blocks| && k < |x.f.blocks[b].insts| && Reachable(x.f.g, b)
    ensures k < |x.g.blocks[b].insts|
    ensures forall j: nat :: j < |x.g.blocks[b].insts[k].args| ==>
      CompleteOrCell(x.g, cells - {x.c}, x.g.blocks[b].insts[k], x.g.blocks[b].insts[k].args[j])
  {
    hide Ctx.Done, TreeOf, CompleteArg, NotCell;
    BlockOfCell(x, b, k);
    assert CompleteBlockBut(x.f, cells, b);
    TopComplete(x, cells, b, k);
    var inst := x.f.blocks[b].insts[k];
    if !IsLoad(inst, x.c) {
      forall j: nat | j < |inst.args|
        ensures CompleteOrCell(x.g, cells - {x.c}, x.g.blocks[b].insts[k], inst.args[j])
      {
        assert CompleteOrCell(x.f, cells, inst, inst.args[j]);
        if CompleteArg(x.f, inst.args[j]) {
          ResultStays(x, inst.args[j]);
        }
      }
    }
  }

  /** Promotion leaves no operand that names the cell. */
  lemma CompleteAfter(x: Ctx, cells: set<nat>)
    requires x.Ok() && x.f.Valid() && x.g.Valid() && CompleteBut(x.f, cells)
    ensures CompleteBut(x.g, cells - {x.c})
  {
    hide Ctx.Done, TreeOf, CompleteArg, CompleteOrCell, NotCell;
    EntryHasNoPhi(x);
    EntryReachable(x.f.g);
    PhisOfBlock(x, 0);
    assert x.g.blocks[0].phis == map[];
    forall b: nat | b < |x.g.blocks| && Reachable(x.g.g, b)
      ensures CompleteBlockBut(x.g, cells - {x.c}, b)
    {
      SameLength(x, b);
      forall k: nat | k < |x.g.blocks[b].insts|
        ensures forall j: nat :: j < |x.g.blocks[b].insts[k].args| ==>
          CompleteOrCell(x.g, cells - {x.c}, x.g.blocks[b].insts[k], x.g.blocks[b].insts[k].args[j])
      {
        InstComplete(x, cells, b, k);
      }
      PhisComplete(x, cells, b);
    }
  }

  lemma PhisComplete(x: Ctx, cells: set<nat>, b: nat)
    requires x.Ok() && x.f.Valid() && CompleteBut(x.f, cells) && b < |x.f.blocks| && Reachable(x.f.g, b)
    ensures forall id, p: nat ::
      id in x.g.blocks[b].phis && p in x.g.blocks[b].phis[id] && IsPred(x.f.g, p, b) ==>
      CompleteArg(x.g, x.g.blocks[b].phis[id][p]) || x.g.blocks[b].phis[id][p] == Undef
  {
    hide Ctx.Done, TreeOf, CompleteArg, NotCell;
    PhisOfBlock(x, b);
    assert CompleteBlockBut(x.f, cells, b);
    forall id, p: nat | id in x.g.blocks[b].phis && p in x.g.blocks[b].phis[id] && IsPred(x.f.g, p, b)
      ensures CompleteArg(x.g, x.g.blocks[b].phis[id][p]) || x.g.blocks[b].phis[id][p] == Undef
    {
      if id in x.f.blocks[b].phis {
        if CompleteArg(x.f, x.f.blocks[b].phis[id][p]) {
          ResultStays(x, x.f.blocks[b].phis[id][p]);
        }
      } else {
        TopComplete(x, cells, p, |x.f.blocks[p].insts|);
      }
    }
  }

  // ---------------------------------------------------------------- what promotion leaves alone

  /** The instruction has its kind, its constants and as many operands; only a store to a cell has
      lost its result. */
  predicate SameShape(inst: Inst, inst': Inst, cells: set<nat>) {
    && inst'.op == inst.op && |inst'.args| == |inst.args|
    && (forall j :: 0 <= j < |inst.args| && inst.args[j].Imm? ==> inst'.args[j] == inst.args[j])
    && (inst'.rets == inst.rets || (inst'.rets == [] && |inst.rets| == 1 && inst.rets[0] in cells))
  }

  ghost predicate GrownBlock(g: Graph, b: nat, before: Block, after: Block, cells: set<nat>) {
    && |after.insts| == |before.insts|
    && (forall k :: 0 <= k < |before.insts| ==> SameShape(before.insts[k], after.insts[k], cells))
    && (forall id :: id in before.phis ==> id in after.phis && after.phis[id] == before.phis[id])
    && forall id, p: nat :: id in after.phis && id !in before.phis && p in after.phis[id] ==> IsPred(g, p, b)
  }

  /** Only PHIs with operands for reachable predecessors have been added. */
  ghost predicate Grown(f: Func, g: Func, cells: set<nat>) {
    && g.g == f.g && |g.blocks| == |f.blocks|
    && forall b: nat :: b < |f.blocks| ==> GrownBlock(f.g, b, f.blocks[b], g.blocks[b], cells)
  }

  lemma GrownRefl(f: Func)
    ensures Grown(f, f, {})
  {
  }

  lemma GrownTrans(f: Func, g: Func, h: Func, cells: set<nat>, more: set<nat>)
    requires Grown(f, g, cells) && Grown(g, h, more)
    ensures Grown(f, h, cells + more)
  {
    hide IsPred;
    forall b: nat | b < |f.blocks|
      ensures GrownBlock(f.g, b, f.blocks[b], h.blocks[b], cells + more)
    {
      var x, y, z := f.blocks[b], g.blocks[b], h.blocks[b];
      assert GrownBlock(f.g, b, x, y, cells) && GrownBlock(f.g, b, y, z, more);
      forall k | 0 <= k < |x.insts|
        ensures SameShape(x.insts[k], z.insts[k], cells + more)
      {
        assert SameShape(x.insts[k], y.insts[k], cells) && SameShape(y.insts[k], z.insts[k], more);
      }
      forall id, p: nat | id in z.phis && id !in x.phis && p in z.phis[id]
        ensures IsPred(f.g, p, b)
      {
        if id in y.phis {
          assert p in y.phis[id];
        }
      }
    }
  }

  lemma CellGrows(x: Ctx)
    requires x.Ok()
    ensures Grown(x.f, x.g, {x.c})
  {
    hide Ctx.Done, TreeOf, PromotedInst, NotCell;
    forall b: nat | b < |x.f.blocks|
      ensures GrownBlock(x.f.g, b, x.f.blocks[b], x.g.blocks[b], {x.c})
    {
      BlockShape(x, b);
      if Reachable(x.f.g, b) {
        forall k | 0 <= k < |x.f.blocks[b].insts|
          ensures SameShape(x.f.blocks[b].insts[k], x.g.blocks[b].insts[k], {x.c})
        {
          ShapeKept(x, b, k);
        }
      }
    }
  }

  lemma ShapeKept(x: Ctx, b: nat, k: nat)
    requires x.Ok() && b < |x.f.blocks| && Reachable(x.f.g, b) && k < |x.f.blocks[b].insts|
    ensures k < |x.g.blocks[b].insts| && SameShape(x.f.blocks[b].insts[k], x.g.blocks[b].insts[k], {x.c})
  {
    hide Ctx.Done, TreeOf, NotCell;
    BlockOfCell(x, b, k);
  }

  // ---------------------------------------------------------------- the pass on an object

  /** No reachable instruction accesses the cell. */
  ghost predicate NoAccess(f: Func, c: nat) {
    forall b: nat, k: nat :: b < |f.blocks| && Reachable(f.g, b) && k < |f.blocks[b].insts| ==>
      !IsLoad(f.blocks[b].insts[k], c) && !IsStore(f.blocks[b].insts[k], c)
  }

  lemma NoAccessLeft(x: Ctx)
    requires x.Ok()
    ensures NoAccess(x.g, x.c)
  {
    hide Ctx.Done, TreeOf, DefsDominateUses, Dom;
    DoneForm(x);
    forall b: nat, k: nat | b < |x.g.blocks| && Reachable(x.g.g, b) && k < |x.g.blocks[b].insts|
      ensures !IsLoad(x.g.blocks[b].insts[k], x.c) && !IsStore(x.g.blocks[b].insts[k], x.c)
    {
      SameLength(x, b);
      BlockOfCell(x, b, k);
      TopIsOk(x.f, x.t, x.phis, x.c, b, k);
    }
  }

  lemma NoAccessStays(x: Ctx, c: nat)
    requires x.Ok() && NoAccess(x.f, c)
    ensures NoAccess(x.g, c)
  {
    hide Ctx.Done, TreeOf, DefsDominateUses, Dom;
    DoneForm(x);
    forall b: nat, k: nat | b < |x.g.blocks| && Reachable(x.g.g, b) && k < |x.g.blocks[b].insts|
      ensures !IsLoad(x.g.blocks[b].insts[k], c) && !IsStore(x.g.blocks[b].insts[k], c)
    {
      SameLength(x, b);
      BlockOfCell(x, b, k);
      TopIsOk(x.f, x.t, x.phis, x.c, b, k);
    }
  }

  function SetOf(cells: seq<nat>): set<nat> {
    set c | c in cells
  }

  /** Promotes the cells of an object one after the other. */
  method ReplaceObject(f: Func, t: DomTree, cells: seq<nat>) returns (g: Func)
    requires f.Valid() && TreeOf(f.g, t) && DefsDominateUses(f)
    requires forall i :: 0 <= i < |cells| ==> CellForm(f, cells[i])
    requires forall i, j :: 0 <= i < j < |cells| ==> cells[i] != cells[j]
    ensures g.Valid() && g.g == f.g && DefsDominateUses(g) && SameMeaning(f, g)
    ensures forall i :: 0 <= i < |cells| ==> NoAccess(g, cells[i])
    ensures CompleteBut(f, SetOf(cells)) ==> Complete(g)
    ensures Grown(f, g, SetOf(cells))
  {
    hide TreeOf, CellForm, DefsDominateUses, NoAccess, SameMeaning, Forced, Ctx.Ok, CompleteBut, Complete, Grown;
    g := f;
    assert cells[0..] == cells && cells[..0] == [] && SetOf(cells[..0]) == {};
    SameMeaningRefl(f);
    GrownRefl(f);
    for i := 0 to |cells|
      invariant g.Valid() && g.g == f.g && DefsDominateUses(g) && SameMeaning(f, g)
      invariant forall j :: i <= j < |cells| ==> CellForm(g, cells[j])
      invariant forall j :: 0 <= j < i ==> NoAccess(g, cells[j])
      invariant CompleteBut(f, SetOf(cells)) ==> CompleteBut(g, SetOf(cells[i..]))
      invariant Grown(f, g, SetOf(cells[..i]))
    {
      ghost var before := g;
      g := ReplaceCell(g, t, cells[i]);
      ghost var phis: set<nat> :| Ctx(before, t, phis, cells[i], g).Ok();
      ghost var x := Ctx(before, t, phis, cells[i], g);
      forall j | i < j < |cells|
        ensures CellForm(g, cells[j])
      {
        KeepsOtherCells(x, cells[j]);
      }
      NoAccessLeft(x);
      forall j | 0 <= j < i
        ensures NoAccess(g, cells[j])
      {
        NoAccessStays(x, cells[j]);
      }
      SameMeaningTrans(f, before, g);
      if CompleteBut(f, SetOf(cells)) {
        CompleteAfter(x, SetOf(cells[i..]));
        RestOfCells(cells, i);
      }
      CellGrows(x);
      GrownTrans(f, before, g, SetOf(cells[..i]), {cells[i]});
      FirstCells(cells, i);
    }
    assert cells[..|cells|] == cells;
    if CompleteBut(f, SetOf(cells)) {
      assert cells[|cells|..] == [] && SetOf([]) == {};
      NoCellsComplete(g);
    }
  }

  lemma FirstCells(cells: seq<nat>, i: nat)
    requires i < |cells|
    ensures SetOf(cells[..i]) + {cells[i]} == SetOf(cells[..i + 1])
  {
    assert cells[..i + 1] == cells[..i] + [cells[i]];
  }

  lemma RestOfCells(cells: seq<nat>, i: nat)
    requires i < |cells| && forall k, j :: 0 <= k < j < |cells| ==> cells[k] != cells[j]
    ensures SetOf(cells[i..]) - {cells[i]} == SetOf(cells[i + 1..])
  {
  }
}
