/** The pass on one stack object (MemoryToRegisterPass::Run in passes/mem_to_reg.cpp): its
    accesses are found, split into cells and promoted, and every load reads what memory holds. */
module CellPass {
  import opened Cfg
  import opened DeadPhis
  import opened Options
  import opened Ssa
  import opened SsaForm
  import opened CellFind
  import opened CellBytes
  import opened CellMemory
  import opened CellPromotion
  import opened CellRewrite
  import opened CellSimulation
  import opened CellView

  // ---------------------------------------------------------------- runs with memory and promoted runs

  /** A load of the object reads the value of the bytes last stored to its cell. */
  ghost predicate LoadsLast(x: Sim, u: User, r: MemPoint) {
    u in x.s.uses && InFunc(x.s.f, u) && UserInst(x.s.f, u).op.Load? && r.p.Pt? ==>
      var stored := LastStored(x.s.uses, r.m.accesses, x.s.uses[u].0);
      stored.Some? && r.p.last == [x.w.decode(x.s.uses[u].1, stored.value)]
  }

  /** If the program with memory executes the first k instructions of its block after n steps,
      so does g, with the same history and operands; a load reads what was last stored. */
  ghost predicate ReadsMemory(x: Sim, g: Func, n: nat, k: nat)
    requires x.s.f.Valid() && g.Valid()
  {
    var t, t' := StepsMem(x.Before(), n), Steps(g, x.o, n);
    t.s.At? && t.s.b < |x.s.f.blocks| && k <= |x.s.f.blocks[t.s.b].insts| ==>
      var r := ExecTo(x.Before(), t.s.b, k, t.s.e, t.s.log, t.m);
      r.p.Pt? ==>
        && t'.At? && t'.b == t.s.b < |g.blocks| && k <= |g.blocks[t'.b].insts|
        && AlikePoints(r.p, Exec(g, x.o, t'.b, k, t'.e, t'.log))
        && (k > 0 ==> LoadsLast(x, ByInst(t'.b, k - 1), r))
  }

  ghost predicate SeesMemory(x: Sim, g: Func, n: nat)
    requires x.s.f.Valid() && g.Valid()
  {
    StepsMem(x.Before(), n).s != Stuck ==> Seen(Steps(g, x.o, n)) == Seen(StepsMem(x.Before(), n).s)
  }

  /** On every run of the program with memory that does not go wrong, g does the same. */
  ghost predicate Implements(s: Split, g: Func)
    requires s.f.Valid() && g.Valid()
  {
    forall w: World, o: Oracle, n: nat, k: nat :: DoesTheSame(Sim(s, w, o), g, n, k)
  }

  ghost predicate DoesTheSame(x: Sim, g: Func, n: nat, k: nat)
    requires x.s.f.Valid() && g.Valid()
  {
    Fits(x.s, x.w) && Computes(x.s.f, x.s.obj, x.w, x.o) ==> SeesMemory(x, g, n) && ReadsMemory(x, g, n, k)
  }

  /** The load just executed has read what was last stored. */
  lemma LoadReadsLastStored(x: Sim, b: nat, k: nat, e: Env, log: seq<Event>, m: Mem)
    requires x.Ok() && InFunc(x.s.f, ByInst(b, k)) && Tracked(x.s, x.w, e, m) && HistoryOk(x.s, x.w, m)
    requires ExecMem(x.Before(), b, k, e, log, m).p.Pt?
    ensures LoadsLast(x, ByInst(b, k), ExecMem(x.Before(), b, k, e, log, m))
  {
    hide Sim.Ok, Split.Ok, Tracked, LoadBytes, LastStored, LoadObject, StoreObject, ExecOther, ObjectLoad, After,
      AreUses;
    var u := ByInst(b, k);
    if u in x.s.uses && x.s.f.blocks[b].insts[k].op.Load? {
      SimParts(x);
      LoadIsObjectLoad(x, b, k, e, m);
      hide Computes, ExecMem;
      var v := LoadExec(x, b, k, e, log, m);
      SplitCells(x.s);
      SizePositive(x.s, x.w, u);
      LoadsSeeLastStore(x.s.size, x.s.uses, m.accesses, u, map[], x.w.a);
      LastAfterLoad(x.s.uses, m.accesses, u, x.s.uses[u].0);
    }
  }

  lemma LoadIsObjectLoad(x: Sim, b: nat, k: nat, e: Env, m: Mem)
    requires x.Ok() && InFunc(x.s.f, ByInst(b, k)) && Tracked(x.s, x.w, e, m)
    requires Ssa.Defined(x.s.f.blocks[b].insts[k].args, e)
    requires ByInst(b, k) in x.s.uses && x.s.f.blocks[b].insts[k].op.Load?
    ensures ObjectLoad(x.s.f.blocks[b].insts[k], m)
  {
    hide Sim.Ok, Split.Ok, Tracked;
    SimParts(x);
    if !ObjectLoad(x.s.f.blocks[b].insts[k], m) {
      OtherIsNoUse(x.s, x.w, b, k, e, m);
      assert false;
    }
  }

  lemma LastAfterLoad(uses: map<User, (int, nat)>, h: seq<Access>, u: User, off: int)
    ensures LastStored(uses, h + [Loaded(u)], off) == LastStored(uses, h, off)
  {
    var h' := h + [Loaded(u)];
    assert h'[..|h'| - 1] == h;
  }

  lemma SeesAsView(x: Sim, g: Func, n: nat)
    requires x.Ok() && x.s.f.Valid() && x.View().Valid() && g.Valid() && SameMeaning(x.View(), g)
    ensures SeesMemory(x, g, n)
  {
    hide Sim.Ok, Steps, StepsMem, Related, SameReads, ViewFunc;
    RunSim(x, n);
    var t, s' := StepsMem(x.Before(), n), Steps(x.View(), x.o, n);
    assert StatesRelated(x, t, s');
    assert s' != Stuck ==> Seen(Steps(g, x.o, n)) == Seen(s');
  }

  lemma ReadsAsView(x: Sim, g: Func, n: nat, k: nat)
    requires x.Ok() && x.s.f.Valid() && x.View().Valid() && g.Valid() && ReadsAlike(x.View(), g, x.o, n, k)
    ensures ReadsMemory(x, g, n, k)
  {
    hide Sim.Ok, Steps, StepsMem, Related, ViewFunc, ExecTo, Exec, LoadsLast;
    RunSim(x, n);
    SimValid(x);
    var t, s' := StepsMem(x.Before(), n), Steps(x.View(), x.o, n);
    assert StatesRelated(x, t, s');
    if t.s.At? && t.s.b < |x.s.f.blocks| && k <= |x.s.f.blocks[t.s.b].insts|
       && ExecTo(x.Before(), t.s.b, k, t.s.e, t.s.log, t.m).p.Pt? {
      BlockSim(x, t.s.b, k, t.s.e, s'.e, t.s.log, t.m);
      if k > 0 {
        LoadInBlock(x, t.s.b, k, t.s.e, s'.e, t.s.log, t.m);
      }
    }
  }

  lemma LoadInBlock(x: Sim, b: nat, k: nat, e: Env, e': Env, log: seq<Event>, m: Mem)
    requires x.Ok() && b < |x.s.f.blocks| && 0 < k <= |x.s.f.blocks[b].insts| && Related(x.s, x.w, e, m, e')
    requires ExecTo(x.Before(), b, k, e, log, m).p.Pt?
    ensures LoadsLast(x, ByInst(b, k - 1), ExecTo(x.Before(), b, k, e, log, m))
  {
    hide Sim.Ok, ExecMem, LoadsLast, Exec, AlikePoints, ViewFunc, Tracked, CellsOk, RefsOk, HistoryOk;
    var r := ExecTo(x.Before(), b, k - 1, e, log, m);
    BlockSim(x, b, k - 1, e, e', log, m);
    LoadReadsLastStored(x, b, k - 1, r.p.e, r.p.log, r.m);
  }

  /** What is promoted from the view with registers implements the program with memory. */
  lemma PromotedImplements(s: Split, g: Func)
    requires s.Ok() && s.f.Valid() && ViewFunc(s.f, s.uses, s.base).Valid() && g.Valid()
    requires SameMeaning(ViewFunc(s.f, s.uses, s.base), g)
    ensures Implements(s, g)
  {
    hide Split.Ok, Steps, ViewFunc, SeesMemory, ReadsMemory, Fits, Computes, ReadsAlike;
    forall w: World, o: Oracle, n: nat, k: nat
      ensures DoesTheSame(Sim(s, w, o), g, n, k)
    {
      var x := Sim(s, w, o);
      if x.Ok() {
        assert ReadsAlike(x.View(), g, o, n, k);
        SeesAsView(x, g, n);
        ReadsAsView(x, g, n, k);
      }
    }
  }

  // ---------------------------------------------------------------- the pass

  /** Numbers from base on are used neither for registers nor for PHIs in the first n blocks. */
  ghost predicate FreshBelow(f: Func, base: nat, n: nat) {
    && (forall b: nat, k: nat, v: nat ::
          b < n && b < |f.blocks| && k < |f.blocks[b].insts| && v in f.blocks[b].insts[k].rets ==> v < base)
    && forall b: nat, id: nat :: b < n && b < |f.blocks| && id in f.blocks[b].phis ==> id < base
  }

  function Above(s: seq<nat>): (m: nat)
    ensures forall v: nat :: v in s ==> v < m
  {
    if s == [] then 0 else
      assert forall v: nat :: v in s ==> v == s[0] || v in s[1..];
      var m := Above(s[1..]);
      if s[0] < m then m else s[0] + 1
  }

  /** A number from which on the registers and PHIs of cells can be numbered. */
  method FirstFree(f: Func) returns (base: nat)
    ensures FreshFrom(f, base)
  {
    base := 0;
    for b := 0 to |f.blocks|
      invariant FreshBelow(f, base, b)
    {
      ghost var base0 := base;
      for k := 0 to |f.blocks[b].insts|
        invariant base0 <= base
        invariant forall j: nat, v: nat :: j < k && v in f.blocks[b].insts[j].rets ==> v < base
      {
        var m := Above(f.blocks[b].insts[k].rets);
        base := if base < m then m else base;
      }
      var ids := f.blocks[b].phis.Keys;
      while ids != {}
        invariant ids <= f.blocks[b].phis.Keys && base0 <= base
        invariant forall j: nat, v: nat :: j < |f.blocks[b].insts| && v in f.blocks[b].insts[j].rets ==> v < base
        invariant forall id: nat :: id in f.blocks[b].phis && id !in ids ==> id < base
        decreases ids
      {
        var id: nat :| id in ids;
        base := if base <= id then id + 1 else base;
        ids := ids - {id};
      }
    }
  }

  /** The registers of the cells at some offsets. */
  method CellList(offsets: map<int, nat>, base: nat) returns (cells: seq<nat>)
    requires forall o: int :: o in offsets ==> o >= 0
    ensures forall i :: 0 <= i < |cells| ==> cells[i] >= base
    ensures forall i, j :: 0 <= i < j < |cells| ==> cells[i] != cells[j]
    ensures forall o: int :: o in offsets ==> CellOf(base, o) in cells
  {
    var os := ListOf(offsets.Keys);
    forall i | 0 <= i < |os|
      ensures os[i] >= 0
    {
      assert os[i] in os;
    }
    cells := seq(|os|, i requires 0 <= i < |os| => CellOf(base, os[i]));
    forall o: int | o in offsets
      ensures CellOf(base, o) in cells
    {
      var i :| 0 <= i < |os| && os[i] == o;
      assert cells[i] == CellOf(base, o);
    }
  }

  /** The pass on one object: none if it leaves the object alone, and otherwise the function
      whose cells are values.  Every run that stays inside the object and loads only what has
      been stored is kept, and every load reads what was last stored to its cell. */
  method PromoteObject(f: Func, t: DomTree, obj: Object, size: nat -> nat)
      returns (r: Option<Func>, ghost uses: map<User, (int, nat)>, ghost base: nat)
    requires WellFormed(f) && TreeOf(f.g, t) && forall ty: nat :: size(ty) > 0
    ensures r.Some? <==> !Escapes(f, obj) && uses != map[] && AreCells(size, uses)
    ensures !Escapes(f, obj) ==> AllUses(f, obj, uses)
    ensures r.Some? ==> r.value.g == f.g && WellFormed(r.value)
    ensures r.Some? ==> f.Valid() && r.value.Valid() && Implements(Split(f, obj, size, uses, base), r.value)
    ensures r.Some? ==> forall u :: u in uses ==> NoAccess(r.value, CellOf(base, uses[u].0))
    ensures r.Some? ==> OthersKept(f, uses, r.value)
  {
    hide WellFormed, TreeOf, Escapes, AllUses, AreCells, DefsDominateUses, NoAccess, Implements, SameMeaning, CellForm,
      FreshFrom, OffsetsOf, ViewFunc, Complete, CompleteBut, Grown, SameReached, KeepUnreached;
    var escapes, all := FindAllUses(f, obj);
    uses, base := all, 0;
    if escapes || all == map[] {
      return None, uses, base;
    }
    var overlap, offsets := Overlaps(size, all);
    if overlap {
      return None, uses, base;
    }
    var first := FirstFree(f);
    base := first;
    ghost var s := Split(f, obj, size, all, base);
    SplitForm(s);
    CellOffsets(size, all, offsets);
    var cells := CellList(offsets, first);
    forall i | 0 <= i < |cells|
      ensures CellForm(ViewFunc(f, all, base), cells[i])
    {
      ViewIsCellForm(s, cells[i]);
    }
    ViewShape(f, all, base);
    ViewDominates(f, all, base);
    var g := ReplaceObject(ViewFunc(f, all, first), t, cells);
    WellFormedComplete(f);
    ViewComplete(s, SetOf(cells));
    var h := KeepUnreached(f, g, t);
    UnreachedKept(f, g, t);
    SameReachedMeans(g, h);
    SameMeaningTrans(ViewFunc(f, all, base), g, h);
    PromotedImplements(s, h);
    ResultWellFormed(s, SetOf(cells), g, h);
    PromotionKeepsOthers(s, SetOf(cells), g, h);
    forall u | u in uses
      ensures NoAccess(h, CellOf(base, uses[u].0))
    {
      assert CellOf(base, uses[u].0) in cells;
      SameAccesses(g, h, CellOf(base, uses[u].0));
    }
    r := Some(h);
  }

  lemma CellOffsets(size: nat -> nat, uses: map<User, (int, nat)>, offsets: map<int, nat>)
    requires AreCells(size, uses) && OffsetsOf(uses, uses.Keys, offsets)
    ensures forall o: int :: o in offsets ==> o >= 0
    ensures forall u :: u in uses ==> uses[u].0 in offsets
  {
    forall o: int | o in offsets
      ensures o >= 0
    {
      assert HasUse(uses, uses.Keys, o, offsets[o]);
      var u :| u in uses && uses[u] == (o, offsets[o]);
      assert uses[u].0 >= 0;
    }
  }

  // ---------------------------------------------------------------- all objects of a function

  /** What becomes of one object: it is left alone exactly when one of its addresses escapes,
      nothing accesses it or its accesses overlap. */
  ghost predicate Handled(f: Func, obj: Object, size: nat -> nat, g: Func)
    requires f.Valid() && g.Valid()
  {
    exists uses: map<User, (int, nat)>, base: nat :: HandledWith(f, obj, size, uses, base, g)
  }

  ghost predicate HandledWith(f: Func, obj: Object, size: nat -> nat, uses: map<User, (int, nat)>, base: nat, g: Func)
    requires f.Valid() && g.Valid()
  {
    && (!Escapes(f, obj) ==> AllUses(f, obj, uses))
    && if !Escapes(f, obj) && uses != map[] && AreCells(size, uses) then
         && Implements(Split(f, obj, size, uses, base), g) && OthersKept(f, uses, g)
         && forall u :: u in uses ==> NoAccess(g, CellOf(base, uses[u].0))
       else g == f
  }

  lemma IsHandled(f: Func, obj: Object, size: nat -> nat, uses: map<User, (int, nat)>, base: nat, g: Func)
    requires f.Valid() && g.Valid() && HandledWith(f, obj, size, uses, base, g)
    ensures Handled(f, obj, size, g)
  {
  }

  /** No address of the object escapes, and the accesses to it are cells, at least one. */
  ghost predicate Promotable(f: Func, obj: Object, size: nat -> nat) {
    !Escapes(f, obj) && exists uses: map<User, (int, nat)> :: CellUses(f, obj, size, uses)
  }

  ghost predicate CellUses(f: Func, obj: Object, size: nat -> nat, uses: map<User, (int, nat)>) {
    AllUses(f, obj, uses) && uses != map[] && AreCells(size, uses)
  }

  lemma OneUseMap(f: Func, obj: Object, uses: map<User, (int, nat)>, uses': map<User, (int, nat)>)
    requires AllUses(f, obj, uses) && AllUses(f, obj, uses')
    ensures uses == uses'
  {
    hide IsUse;
    forall u: User
      ensures u in uses <==> u in uses'
      ensures u in uses ==> uses[u] == uses'[u]
    {
      if u in uses {
        assert IsUse(f, obj, u, uses[u].0, uses[u].1);
      }
      if u in uses' {
        assert IsUse(f, obj, u, uses'[u].0, uses'[u].1);
      }
    }
  }

  lemma IsPromotable(f: Func, obj: Object, size: nat -> nat, uses: map<User, (int, nat)>)
    requires !Escapes(f, obj) ==> AllUses(f, obj, uses)
    ensures Promotable(f, obj, size) <==> !Escapes(f, obj) && uses != map[] && AreCells(size, uses)
  {
    hide Escapes, AllUses, AreCells;
    if !Escapes(f, obj) {
      forall other: map<User, (int, nat)> | CellUses(f, obj, size, other)
        ensures other == uses
      {
        OneUseMap(f, obj, uses, other);
      }
      if uses != map[] && AreCells(size, uses) {
        assert CellUses(f, obj, size, uses);
      }
    }
  }

  lemma WellFormedValid(f: Func)
    requires WellFormed(f)
    ensures f.Valid()
  {
  }

  /** The pass on a function: every object in turn, each in the function that is left, which
      trace records. */
  method PromoteObjects(f: Func, t: DomTree, objs: seq<Object>, size: nat -> nat)
      returns (g: Func, changed: bool, ghost trace: seq<Func>)
    requires WellFormed(f) && TreeOf(f.g, t) && forall ty: nat :: size(ty) > 0
    ensures WellFormed(g) && g.g == f.g
    ensures |trace| == |objs| + 1 && trace[0] == f && trace[|objs|] == g
    ensures changed <==> exists i :: 0 <= i < |objs| && Promotable(trace[i], objs[i], size)
    ensures forall i :: 0 <= i <= |objs| ==> trace[i].Valid()
    ensures forall i :: 0 <= i < |objs| ==> Handled(trace[i], objs[i], size, trace[i + 1])
  {
    hide WellFormed, TreeOf, Escapes, AllUses, AreCells, NoAccess, Implements, Handled, Promotable, OthersKept;
    g, changed, trace := f, false, [f];
    WellFormedValid(f);
    for i := 0 to |objs|
      invariant WellFormed(g) && g.g == f.g
      invariant |trace| == i + 1 && trace[0] == f && trace[i] == g
      invariant changed <==> exists j :: 0 <= j < i && Promotable(trace[j], objs[j], size)
      invariant forall j :: 0 <= j <= i ==> trace[j].Valid()
      invariant forall j :: 0 <= j < i ==> Handled(trace[j], objs[j], size, trace[j + 1])
    {
      ghost var before := g;
      var r, uses, base := PromoteObject(g, t, objs[i], size);
      if r.Some? {
        g, changed := r.value, true;
      }
      WellFormedValid(g);
      IsHandled(before, objs[i], size, uses, base, g);
      IsPromotable(before, objs[i], size, uses);
      trace := trace + [g];
      assert trace[i] == before;
    }
  }
}
