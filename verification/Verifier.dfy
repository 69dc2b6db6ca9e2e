/** The dominance walk of the IR verifier (core/verifier.cpp). */
module Verifier {
  import opened Cfg
  import opened Ssa
  import opened SsaForm

  /** insts holds the instructions of the strict dominators of b. */
  ghost predicate HoldsAbove(f: Func, b: nat, insts: set<InstId>) {
    forall i: InstId :: i in insts <==> Exists(f, i) && SDom(f.g, i.b, b)
  }

  /** insts holds the instructions that dominate the point before instruction k of b. */
  ghost predicate HoldsAt(f: Func, b: nat, k: nat, insts: set<InstId>) {
    forall i: InstId :: i in insts <==> Exists(f, i) && (if i.b == b then (i.InstAt? ==> i.k < k) else Dom(f.g, i.b, b))
  }

  lemma HoldsAvailable(f: Func, b: nat, k: nat, insts: set<InstId>, r: Ref)
    requires HoldsAt(f, b, k, insts)
    ensures InstOf(r) in insts <==> Available(f, r, b, k)
  {
  }

  function PhiIds(f: Func, b: nat): set<InstId>
    requires b < |f.blocks|
  {
    set id | id in f.blocks[b].phis :: PhiId(b, id)
  }

  function InstIds(f: Func, b: nat): set<InstId>
    requires b < |f.blocks|
  {
    PhiIds(f, b) + set k: nat | k < |f.blocks[b].insts| :: InstAt(b, k)
  }

  /** A child of b in the dominator tree sees exactly what dominates the end of b. */
  lemma ChildSees(f: Func, t: DomTree, b: nat, i: nat, insts: set<InstId>)
    requires f.Valid() && TreeOf(f.g, t) && b < |f.blocks| && i < |t.kids[b]|
    requires HoldsAt(f, b, |f.blocks[b].insts|, insts)
    ensures HoldsAbove(f, t.kids[b][i], insts)
  {
    var c := t.kids[b][i];
    assert IsIdom(f.g, b, c);
    forall a: nat
      ensures SDom(f.g, a, c) <==> Dom(f.g, a, b)
    {
      if Dom(f.g, a, b) {
        DomTransitive(f.g, a, b, c);
        if a == c {
          DomAntisymmetric(f.g, b, c);
        }
      }
    }
    DomReflexive(f.g, b);
  }

  class Verifier {
    const f: Func
    const t: DomTree
    /** The definitions available at the current point of the walk. */
    var insts: set<InstId>

    ghost predicate Valid() {
      f.Valid() && TreeOf(f.g, t) && |t.kids| == |f.blocks|
    }

    constructor (f: Func, t: DomTree)
      requires f.Valid() && TreeOf(f.g, t)
      ensures Valid() && this.f == f && this.t == t && insts == {}
    {
      this.f, this.t, insts := f, t, {};
    }

    /** The operands of one instruction. */
    method CheckInst(b: nat, k: nat) returns (ok: bool)
      requires Valid() && b < |f.blocks| && k < |f.blocks[b].insts|
      requires HoldsAt(f, b, k, insts)
      ensures ok <==> InstOk(f, b, k)
    {
      var args := f.blocks[b].insts[k].args;
      for j := 0 to |args|
        invariant forall m :: 0 <= m < j ==> OperandOk(f, args[m], b, k)
      {
        if args[j].Use? {
          HoldsAvailable(f, b, k, insts, args[j].r);
          if InstOf(args[j].r) !in insts {
            assert !OperandOk(f, args[j], b, k);
            return false;
          }
        }
      }
      return true;
    }

    /** The PHI operands that flow along the edge to s. */
    method CheckEdge(b: nat, s: nat) returns (ok: bool)
      requires Valid() && b < |f.blocks| && s < |f.blocks|
      requires HoldsAt(f, b, |f.blocks[b].insts|, insts)
      ensures ok <==> EdgeOk(f, b, s)
    {
      var phis := f.blocks[s].phis;
      var ids := phis.Keys;
      while ids != {}
        invariant ids <= phis.Keys
        invariant forall id :: id in phis.Keys - ids ==> PhiOk(f, b, s, id)
        decreases ids
      {
        var id: nat :| id in ids;
        if b !in phis[id] {
          assert !PhiOk(f, b, s, id);
          return false;
        }
        if phis[id][b].Use? {
          HoldsAvailable(f, b, |f.blocks[b].insts|, insts, phis[id][b].r);
          if InstOf(phis[id][b].r) !in insts {
            assert !PhiOk(f, b, s, id);
            return false;
          }
        }
        ids := ids - {id};
      }
      return true;
    }

    /** Checks and registers the instructions of one block, then its outgoing PHI operands. */
    method CheckBlock(b: nat) returns (ok: bool)
      requires Valid() && b < |f.blocks| && HoldsAbove(f, b, insts)
      modifies this
      ensures ok <==> BlockOk(f, b)
      ensures HoldsAt(f, b, 0, old(insts) + PhiIds(f, b))
      ensures ok ==> insts == old(insts) + InstIds(f, b) && HoldsAt(f, b, |f.blocks[b].insts|, insts)
    {
      insts := insts + PhiIds(f, b);
      for k := 0 to |f.blocks[b].insts|
        invariant insts == old(insts) + PhiIds(f, b) + (set m: nat | m < k :: InstAt(b, m))
        invariant HoldsAt(f, b, k, insts)
        invariant forall m :: 0 <= m < k ==> InstOk(f, b, m)
      {
        ok := CheckInst(b, k);
        if !ok {
          return;
        }
        insts := insts + {InstAt(b, k)};
      }
      for i := 0 to |f.g.succs[b]|
        invariant insts == old(insts) + InstIds(f, b) && HoldsAt(f, b, |f.blocks[b].insts|, insts)
        invariant forall j :: 0 <= j < i ==> EdgeOk(f, b, f.g.succs[b][j])
      {
        ok := CheckEdge(b, f.g.succs[b][i]);
        if !ok {
          return;
        }
      }
      return true;
    }

    /** Walks the dominator tree below b; the set of definitions is restored afterwards. */
    method Check(b: nat) returns (ok: bool)
      requires Valid() && b < |f.blocks| && Reachable(f.g, b) && HoldsAbove(f, b, insts)
      modifies this
      ensures ok <==> forall c :: c in Subtree(f.g, b) ==> BlockOk(f, c)
      ensures ok ==> insts == old(insts)
      decreases Subtree(f.g, b)
    {
      hide TreeOf, BlockOk, HoldsAt;
      SelfInSubtree(f.g, b);
      ok := CheckBlock(b);
      if !ok {
        return;
      }
      ghost var all := insts;
      KidsStart(f.g, t, b);
      for i := 0 to |t.kids[b]|
        invariant insts == all && ok
        invariant forall c :: c in Kids(f.g, t, b, i) ==> c < |f.blocks| && BlockOk(f, c)
      {
        KidFacts(f.g, t, b, i);
        ChildSees(f, t, b, i, insts);
        ok := Check(t.kids[b][i]);
        if !ok {
          return;
        }
      }
      KidsAreSubtree(f.g, t, b);
      insts := insts - InstIds(f, b);
      Restored(f, b, old(insts));
    }

    /** The PHIs of a block name exactly its predecessors. */
    method CheckPreds(b: nat) returns (ok: bool)
      requires Valid() && b < |f.blocks|
      ensures ok <==> PredsOk(f, b)
    {
      var phis := f.blocks[b].phis;
      var preds := set p | p in Preds(f.g, b);
      var ids := phis.Keys;
      while ids != {}
        invariant ids <= phis.Keys
        invariant forall id :: id in phis.Keys - ids ==> PhiPredsOk(f, b, id)
        decreases ids
      {
        var id: nat :| id in ids;
        if preds != phis[id].Keys {
          assert !PhiPredsOk(f, b, id);
          return false;
        }
        ids := ids - {id};
      }
      return true;
    }

    /** The verifier accepts a function exactly when definitions dominate uses in every
        reachable block and the PHIs of every block match its predecessors. */
    method Verify() returns (ok: bool)
      requires Valid() && insts == {}
      modifies this
      ensures ok <==> Accepted(f)
      ensures ok ==> insts == {}
    {
      EntryReachable(f.g);
      NothingAbove(f);
      ok := Check(0);
      if !ok {
        return;
      }
      for b := 0 to |f.blocks|
        invariant insts == {} && forall c: nat :: c < b ==> PredsOk(f, c)
      {
        ok := CheckPreds(b);
        if !ok {
          return;
        }
      }
      return true;
    }
  }

  ghost predicate PhiPredsOk(f: Func, b: nat, id: nat)
    requires b < |f.blocks| && id in f.blocks[b].phis
  {
    forall p: nat :: p in f.blocks[b].phis[id] <==> Edge(f.g, p, b)
  }

  ghost predicate PredsOk(f: Func, b: nat)
    requires b < |f.blocks|
  {
    forall id :: id in f.blocks[b].phis ==> PhiPredsOk(f, b, id)
  }

  ghost predicate Accepted(f: Func)
    requires f.Valid()
  {
    DefsDominateUses(f) && forall b: nat :: b < |f.blocks| ==> PredsOk(f, b)
  }

  lemma KidsStart(g: Graph, t: DomTree, b: nat)
    requires b < |t.kids|
    ensures Kids(g, t, b, 0) == {b}
  {
  }

  lemma Restored(f: Func, b: nat, insts: set<InstId>)
    requires b < |f.blocks| && HoldsAbove(f, b, insts)
    ensures insts + InstIds(f, b) - InstIds(f, b) == insts
  {
    assert forall i :: i in InstIds(f, b) ==> i.b == b;
  }

  lemma NothingAbove(f: Func)
    requires f.Valid()
    ensures HoldsAbove(f, 0, {})
    ensures (forall c :: c in Subtree(f.g, 0) ==> BlockOk(f, c)) <==> DefsDominateUses(f)
  {
    EntryReachable(f.g);
    forall i: InstId
      ensures !SDom(f.g, i.b, 0)
    {
      if Dom(f.g, i.b, 0) {
        OnlyEntryDominatesEntry(f.g, i.b);
      }
    }
    forall c: nat | c < |f.blocks| && Reachable(f.g, c)
      ensures c in Subtree(f.g, 0)
    {
    }
  }
}
