/** SSA construction for one function (Parser::PhiPlacement in core/parser_phi.cpp):
    liveness, placement and renaming put together, and when the parser reports an error. */
module ParserPhi {
  import opened Cfg
  import opened Options
  import opened Ssa
  import L = Liveness
  import opened Placement
  import opened PhiMeaning
  import opened Renaming
  import opened SsaForm
  import opened DeadPhis

  datatype Result = Success(f: Func) | UndefinedVReg(v: nat)

  /** Instruction k of b reads v, and no run reaches that read after a write of v. */
  ghost predicate NeverDefined(f: Func, b: nat, k: nat, v: nat)
    requires f.Valid()
  {
    && b < |f.blocks| && k < |f.blocks[b].insts|
    && VReg(v) in f.blocks[b].insts[k].args
    && (forall m :: 0 <= m < k ==> v !in f.blocks[b].insts[m].rets)
    && !DefReaches(f, b, v)
  }

  /** Some run to b executes a write of v before it gets there. */
  ghost predicate DefReaches(f: Func, b: nat, v: nat)
    requires f.Valid()
  {
    exists p, i :: RunWrites(f, p, i, b, v)
  }

  ghost predicate RunWrites(f: Func, p: seq<nat>, i: nat, b: nat, v: nat)
    requires f.Valid()
  {
    RunTo(f.g, p, b) && i < |p| - 1 && Writes(f, p[i], v)
  }

  // ---------------------------------------------------------------- no stack top, no definition

  /** An empty stack at a live register means that no run to the block has written it. */
  lemma NoTopNoDef(f: Func, t: DomTree, live: seq<set<nat>>, phis: seq<set<nat>>, b: nat, v: nat, p: seq<nat>, i: nat)
    requires IsSource(f) && TreeOf(f.g, t) && LiveComplete(f, live) && |phis| == |f.blocks|
    requires ClosedFor(f, t, live, phis, v)
    requires b < |f.blocks| && L.LiveIn(f, b, v) && Top(f, t, phis, b, v) == None
    requires RunTo(f.g, p, b) && i < |p| - 1
    ensures !Writes(f, p[i], v)
    decreases Dominators(f.g, b)
  {
    hide TreeOf, LiveComplete, ClosedFor, Dom;
    NotEntry(f, t, p, b);
    var d := t.idom[b];
    TopAtEntry(f, t, phis, b, v);
    QuietSinceIdom(f, t, live, phis, p, b, v);
    EmptyOut(f, t, phis, d, |f.blocks[d].insts|, v);
    var m := Last(p, d);
    if i < m {
      L.LiveThrough(f, d, 0, v);
      PrefixIsRun(f.g, p, m);
      DominatorsShrink(f.g, d, b);
      NoTopNoDef(f, t, live, phis, d, v, p[..m + 1], i);
    }
  }

  lemma NotEntry(f: Func, t: DomTree, p: seq<nat>, b: nat)
    requires IsSource(f) && TreeOf(f.g, t) && RunTo(f.g, p, b) && |p| > 1
    ensures b in t.idom && t.idom[b] < |f.blocks| && SDom(f.g, t.idom[b], b) && Reachable(f.g, b)
  {
    assert Edge(f.g, p[|p| - 2], p[|p| - 1]);
  }

  lemma {:induction false} EmptyOut(f: Func, t: DomTree, phis: seq<set<nat>>, b: nat, k: nat, v: nat)
    requires f.Valid() && TreeOf(f.g, t) && |phis| == |f.blocks| && b < |f.blocks| && k <= |f.blocks[b].insts|
    requires TopAt(f, t, phis, b, k, v) == None
    ensures forall m :: 0 <= m < k ==> v !in f.blocks[b].insts[m].rets
    ensures Top(f, t, phis, b, v) == None
  {
    if k > 0 {
      EmptyOut(f, t, phis, b, k - 1, v);
    }
  }

  // ---------------------------------------------------------------- a stack top comes from a definition

  /** The registers live at each block that some run defines before reaching it. */
  ghost function DefinedBefore(f: Func, live: seq<set<nat>>): (s: seq<set<nat>>)
    requires f.Valid() && |live| == |f.blocks|
    ensures |s| == |live|
    ensures forall b: nat, v: nat :: b < |s| ==> (v in s[b] <==> v in live[b] && DefReaches(f, b, v))
  {
    seq(|live|, b requires 0 <= b < |live| => set v | v in live[b] && DefReaches(f, b, v))
  }

  /** A write, or a run that wrote before, carries over to blocks that a dominates. */
  lemma DefCarries(f: Func, a: nat, b: nat, v: nat, p: seq<nat>)
    requires f.Valid() && RunTo(f.g, p, b) && Dom(f.g, a, b)
    requires DefReaches(f, a, v) || (Writes(f, a, v) && a != b)
    requires a < |f.blocks|
    ensures DefReaches(f, b, v)
  {
    var i := First(p, a);
    if DefReaches(f, a, v) {
      var r, j :| RunWrites(f, r, j, a, v);
      Splice(f.g, r, p, i);
      assert RunWrites(f, r + p[i + 1..], j, b, v);
    } else {
      assert RunWrites(f, p, i, b, v);
    }
  }

  lemma StepAfterDef(f: Func, a: nat, b: nat, v: nat)
    requires f.Valid() && Reachable(f.g, a) && Edge(f.g, a, b) && b < |f.blocks|
    requires DefReaches(f, a, v) || Writes(f, a, v)
    ensures DefReaches(f, b, v)
  {
    if DefReaches(f, a, v) {
      var r, j :| RunWrites(f, r, j, a, v);
      ConcatPath(f.g, r, [b]);
      assert RunWrites(f, r + [b], j, b, v);
    } else {
      var p :| RunTo(f.g, p, a);
      ConcatPath(f.g, p, [b]);
      assert RunWrites(f, p + [b], |p| - 1, b, v);
    }
  }

  lemma DefinedIsClosed(f: Func, t: DomTree, live: seq<set<nat>>)
    requires f.Valid() && TreeOf(f.g, t) && |live| == |f.blocks|
    ensures Closed(f, t, live, DefinedBefore(f, live))
  {
    var s := DefinedBefore(f, live);
    forall a: nat, b: nat, v: nat | a < |s| && b < |s| && Reachable(f.g, a) && DefOrPhi(f, s, a, v) &&
      b in t.front[a] && v in live[b]
      ensures v in s[b]
    {
      assert InFrontier(f.g, a, b);
      var p: nat :| Reachable(f.g, p) && Edge(f.g, p, b) && Dom(f.g, a, p);
      var r :| RunTo(f.g, r, p);
      if a != p || DefReaches(f, a, v) {
        DefCarries(f, a, p, v, r);
      }
      StepAfterDef(f, p, b, v);
    }
  }

  /** Every stack top was put there by a definition that reaches the point. */
  lemma {:induction false} TopHasDef(f: Func, t: DomTree, phis: seq<set<nat>>, b: nat, k: nat, v: nat)
    requires f.Valid() && TreeOf(f.g, t) && |phis| == |f.blocks| && b < |f.blocks| && k <= |f.blocks[b].insts|
    requires Reachable(f.g, b)
    requires forall c: nat :: c < |phis| && v in phis[c] ==> DefReaches(f, c, v)
    requires TopAt(f, t, phis, b, k, v).Some?
    ensures DefReaches(f, b, v) || exists m :: 0 <= m < k && v in f.blocks[b].insts[m].rets
    decreases Dominators(f.g, b), k
  {
    if k > 0 {
      if v !in f.blocks[b].insts[k - 1].rets {
        TopHasDef(f, t, phis, b, k - 1, v);
      }
    } else {
      TopAtEntry(f, t, phis, b, v);
      if v !in phis[b] {
        var d := t.idom[b];
        DominatorsShrink(f.g, d, b);
        DomIsReachable(f.g, d, b);
        TopHasDef(f, t, phis, d, |f.blocks[d].insts|, v);
        var p :| RunTo(f.g, p, b);
        DefCarries(f, d, b, v, p);
      }
    }
  }

  /** The facts about placement that the method Place establishes. */
  ghost predicate Placed(f: Func, t: DomTree, live: seq<set<nat>>, phis: seq<set<nat>>)
    requires f.Valid() && TreeOf(f.g, t)
  {
    && LiveComplete(f, live) && |phis| == |f.blocks|
    && Closed(f, t, live, phis)
    && (forall s: seq<set<nat>>, b: nat :: |s| == |phis| && Closed(f, t, live, s) && b < |phis| ==> phis[b] <= s[b])
  }

  /** The renamer finds no definition for an operand exactly when no run defines it. */
  lemma UndefinedIsNeverDefined(f: Func, t: DomTree, live: seq<set<nat>>, phis: seq<set<nat>>, b: nat, k: nat, v: nat)
    requires IsSource(f) && TreeOf(f.g, t) && Placed(f, t, live, phis)
    requires b < |f.blocks| && Reachable(f.g, b)
    ensures UndefinedUse(f, t, phis, b, k, v) <==> NeverDefined(f, b, k, v)
  {
    if UndefinedUse(f, t, phis, b, k, v) {
      EmptyOut(f, t, phis, b, k, v);
      assert L.ReadFrom(f.blocks[b].insts, 0, k, v);
      L.LiveHere(f, b, 0, v);
      forall p, i | RunTo(f.g, p, b) && 0 <= i < |p| - 1
        ensures !Writes(f, p[i], v)
      {
        NoTopNoDef(f, t, live, phis, b, v, p, i);
      }
    } else if NeverDefined(f, b, k, v) {
      DefinedIsClosed(f, t, live);
      assert forall c: nat :: c < |phis| && v in phis[c] ==> v in DefinedBefore(f, live)[c];
      TopHasDef(f, t, phis, b, k, v);
    }
  }

  // ---------------------------------------------------------------- the whole construction

  method Construct(f: Func, t: DomTree, order: seq<nat>) returns (r: Result)
    requires IsSource(f) && TreeOf(f.g, t)
    requires forall b: nat :: b in order <==> b < |f.blocks| && Reachable(f.g, b)
    ensures r.Success? ==> r.f.Valid() && r.f.g == f.g && SameMeaning(f, r.f) && SameOps(f, r.f)
    ensures r.Success? ==> DefsDominateUses(r.f) && Complete(r.f)
    ensures r.UndefinedVReg? <==> exists b: nat, k: nat, v: nat :: Reachable(f.g, b) && NeverDefined(f, b, k, v)
    ensures r.UndefinedVReg? ==> exists b: nat, k: nat :: Reachable(f.g, b) && NeverDefined(f, b, k, r.v)
  {
    var live := L.Compute(f, order);
    var phis := Place(f, t, live);
    var renamer := new Renamer(f, t, phis);
    EntryReachable(f.g);
    EmptyStacks(f, t, phis, renamer.vars);
    ghost var body0, args0 := renamer.body, renamer.args;
    var err := renamer.Rename(0);
    if err.Some? {
      ghost var b: nat, k: nat :| b in Subtree(f.g, 0) && UndefinedUse(f, t, phis, b, k, err.value);
      UndefinedIsNeverDefined(f, t, live, phis, b, k, err.value);
      return UndefinedVReg(err.value);
    }
    var body, args := renamer.body, renamer.args;
    var g := Func(f.g, seq(|f.blocks|, b requires 0 <= b < |f.blocks| => Block(args[b], body[b])));
    Assembled(f, t, phis, body0, body, args0, args, g);
    NoErrors(f, t, live, phis, g);
    RenamedDominates(f, t, phis, g);
    EntryHasNoPhi(f, t, live, phis);
    RenamedComplete(f, t, phis, g);
    var c := Ctx(f, t, live, phis, g);
    RenamingPreservesMeaning(c);
    RenamedOps(f, t, phis, g);
    return Success(g);
  }

  /** Renaming replaces register operands and nothing else. */
  lemma RenamedOps(f: Func, t: DomTree, phis: seq<set<nat>>, g: Func)
    requires f.Valid() && TreeOf(f.g, t) && IsRenamed(f, t, phis, g)
    ensures SameOps(f, g)
  {
    hide TreeOf, Reachable, FilledPhis;
    forall b: nat | b < |f.blocks| && Reachable(f.g, b)
      ensures |g.blocks[b].insts| == |f.blocks[b].insts|
      ensures forall k: nat :: k < |f.blocks[b].insts| ==> SameOp(f.blocks[b].insts[k], g.blocks[b].insts[k])
    {
      assert RenamedBlock(f, t, phis, b, g.blocks[b].insts, |f.blocks[b].insts|);
      forall k: nat | k < |f.blocks[b].insts|
        ensures SameOp(f.blocks[b].insts[k], g.blocks[b].insts[k])
      {
        var inst' := g.blocks[b].insts[k];
        assert RenamedInst(f, t, phis, b, k, inst', |inst'.args|);
        forall j | 0 <= j < |inst'.args| && f.blocks[b].insts[k].args[j].Imm?
          ensures inst'.args[j] == f.blocks[b].insts[k].args[j]
        {
          assert RenamedArg(f, t, phis, b, k, f.blocks[b].insts[k].args[j], inst'.args[j]);
        }
      }
    }
  }

  lemma EmptyStacks(f: Func, t: DomTree, phis: seq<set<nat>>, vars: map<nat, seq<Ref>>)
    requires f.Valid() && TreeOf(f.g, t) && |phis| == |f.blocks| && vars == map[]
    ensures InheritedTops(f, t, phis, 0, vars)
  {
  }

  lemma Assembled(f: Func, t: DomTree, phis: seq<set<nat>>, body0: seq<seq<Inst>>, body: seq<seq<Inst>>,
                  args0: seq<map<nat, map<nat, Operand>>>, args: seq<map<nat, map<nat, Operand>>>, g: Func)
    requires f.Valid() && TreeOf(f.g, t) && |phis| == |f.blocks|
    requires BodyDone(f, t, phis, Subtree(f.g, 0), body0, body) && ArgsDone(f, t, phis, Subtree(f.g, 0), args0, args)
    requires forall done :: Untouched(f, phis, done, body0, args0)
    requires g == Func(f.g, seq(|f.blocks|, b requires 0 <= b < |f.blocks| => Block(args[b], body[b])))
    ensures g.Valid() && IsRenamed(f, t, phis, g)
  {
    EntryReachable(f.g);
    forall b: nat | b < |f.blocks|
      ensures |body[b]| > 0
    {
      assert Untouched(f, phis, {b}, body0, args0);
    }
    forall b: nat | b < |f.blocks| && Reachable(f.g, b)
      ensures RenamedBlock(f, t, phis, b, g.blocks[b].insts, |f.blocks[b].insts|)
      ensures FilledPhis(f, t, phis, b, g.blocks[b].phis)
    {
      assert b in Subtree(f.g, 0);
      forall v: nat, p: nat | v in phis[b] && p < |f.blocks| && Reachable(f.g, p) && Edge(f.g, p, b)
        ensures p in args[b][v] && args[b][v][p] == AsOperand(Out(f, t, phis, p, v))
      {
        assert p in Subtree(f.g, 0);
        assert EntryDone(f, t, phis, Subtree(f.g, 0), args0[b][v], args[b][v], b, v, p);
      }
    }
  }

  lemma NoErrors(f: Func, t: DomTree, live: seq<set<nat>>, phis: seq<set<nat>>, g: Func)
    requires IsSource(f) && TreeOf(f.g, t) && Placed(f, t, live, phis) && IsRenamed(f, t, phis, g)
    ensures forall b: nat, k: nat, v: nat :: Reachable(f.g, b) ==> !NeverDefined(f, b, k, v)
  {
    forall b: nat, k: nat, v: nat | Reachable(f.g, b) && NeverDefined(f, b, k, v)
      ensures false
    {
      RenamedHasTop(f, t, phis, g, b, k, v);
      UndefinedIsNeverDefined(f, t, live, phis, b, k, v);
    }
  }

  lemma RenamedHasTop(f: Func, t: DomTree, phis: seq<set<nat>>, g: Func, b: nat, k: nat, v: nat)
    requires f.Valid() && TreeOf(f.g, t) && IsRenamed(f, t, phis, g)
    requires b < |f.blocks| && Reachable(f.g, b) && k < |f.blocks[b].insts| && VReg(v) in f.blocks[b].insts[k].args
    ensures TopAt(f, t, phis, b, k, v).Some?
  {
    var inst, inst' := f.blocks[b].insts[k], g.blocks[b].insts[k];
    assert RenamedInst(f, t, phis, b, k, inst', |inst'.args|);
    var j :| 0 <= j < |inst.args| && inst.args[j] == VReg(v);
    assert RenamedArg(f, t, phis, b, k, inst.args[j], inst'.args[j]);
  }

  // ---------------------------------------------------------------- dominance of the result

  /** A stack top is a definition that dominates the point. */
  lemma {:induction false} TopDominates(f: Func, t: DomTree, phis: seq<set<nat>>, b: nat, k: nat, v: nat)
    requires f.Valid() && TreeOf(f.g, t) && |phis| == |f.blocks| && b < |f.blocks| && k <= |f.blocks[b].insts|
    requires Reachable(f.g, b)
    ensures var r := TopAt(f, t, phis, b, k, v);
      r.Some? ==> Dom(f.g, r.value.b, b) && (r.value.b == b && r.value.Res? ==> r.value.k < k)
    decreases Dominators(f.g, b), k
  {
    hide Dom;
    if k > 0 {
      DomReflexive(f.g, b);
      TopDominates(f, t, phis, b, k - 1, v);
    } else {
      TopAtEntry(f, t, phis, b, v);
      DomReflexive(f.g, b);
      if v !in phis[b] && b in t.idom {
        var d := t.idom[b];
        DominatorsShrink(f.g, d, b);
        DomIsReachable(f.g, d, b);
        TopDominates(f, t, phis, d, |f.blocks[d].insts|, v);
        var r := TopAt(f, t, phis, d, |f.blocks[d].insts|, v);
        if r.Some? {
          DomTransitive(f.g, r.value.b, d, b);
          if r.value.b == b {
            DomAntisymmetric(f.g, d, b);
          }
        }
      }
    }
  }

  lemma TopAvailable(f: Func, t: DomTree, phis: seq<set<nat>>, g: Func, b: nat, k: nat, v: nat)
    requires f.Valid() && TreeOf(f.g, t) && IsRenamed(f, t, phis, g)
    requires b < |f.blocks| && Reachable(f.g, b) && k <= |f.blocks[b].insts| && TopAt(f, t, phis, b, k, v).Some?
    ensures Available(g, TopAt(f, t, phis, b, k, v).value, b, k)
  {
    var r := TopAt(f, t, phis, b, k, v).value;
    TopSound(f, t, phis, b, k, v);
    TopDominates(f, t, phis, b, k, v);
    DomIsReachable(f.g, r.b, b);
    assert RenamedBlock(f, t, phis, r.b, g.blocks[r.b].insts, |f.blocks[r.b].insts|);
    assert FilledPhis(f, t, phis, r.b, g.blocks[r.b].phis);
  }

  lemma RenamedDominates(f: Func, t: DomTree, phis: seq<set<nat>>, g: Func)
    requires IsSource(f) && TreeOf(f.g, t) && g.Valid() && IsRenamed(f, t, phis, g)
    ensures DefsDominateUses(g)
  {
    hide TreeOf;
    forall b: nat | b < |g.blocks| && Reachable(g.g, b)
      ensures BlockOk(g, b)
    {
      forall k | 0 <= k < |g.blocks[b].insts|
        ensures InstOk(g, b, k)
      {
        RenamedInstOk(f, t, phis, g, b, k);
      }
      forall i | 0 <= i < |g.g.succs[b]|
        ensures EdgeOk(g, b, g.g.succs[b][i])
      {
        RenamedEdgeOk(f, t, phis, g, b, g.g.succs[b][i]);
      }
    }
  }

  lemma RenamedInstOk(f: Func, t: DomTree, phis: seq<set<nat>>, g: Func, b: nat, k: nat)
    requires IsSource(f) && TreeOf(f.g, t) && IsRenamed(f, t, phis, g)
    requires b < |g.blocks| && Reachable(f.g, b) && k < |g.blocks[b].insts|
    ensures InstOk(g, b, k)
  {
    hide TreeOf;
    assert RenamedBlock(f, t, phis, b, g.blocks[b].insts, |f.blocks[b].insts|);
    var inst, inst' := f.blocks[b].insts[k], g.blocks[b].insts[k];
    assert RenamedInst(f, t, phis, b, k, inst', |inst'.args|);
    forall j | 0 <= j < |inst'.args|
      ensures OperandOk(g, inst'.args[j], b, k)
    {
      assert RenamedArg(f, t, phis, b, k, inst.args[j], inst'.args[j]);
      if inst.args[j].VReg? {
        TopAvailable(f, t, phis, g, b, k, inst.args[j].v);
      }
    }
  }

  lemma RenamedEdgeOk(f: Func, t: DomTree, phis: seq<set<nat>>, g: Func, b: nat, s: nat)
    requires f.Valid() && TreeOf(f.g, t) && IsRenamed(f, t, phis, g)
    requires b < |g.blocks| && Reachable(f.g, b) && Edge(f.g, b, s) && s < |g.blocks|
    ensures EdgeOk(g, b, s)
  {
    hide TreeOf;
    EdgeReachable(f.g, b, s);
    assert RenamedBlock(f, t, phis, b, g.blocks[b].insts, |f.blocks[b].insts|);
    assert FilledPhis(f, t, phis, s, g.blocks[s].phis);
    forall v | v in g.blocks[s].phis
      ensures PhiOk(g, b, s, v)
    {
      var k := |f.blocks[b].insts|;
      if Out(f, t, phis, b, v).Some? {
        TopAvailable(f, t, phis, g, b, k, v);
      }
    }
  }

  /** The entry block is on no frontier, so the least placement puts no PHI there. */
  lemma EntryHasNoPhi(f: Func, t: DomTree, live: seq<set<nat>>, phis: seq<set<nat>>)
    requires IsSource(f) && TreeOf(f.g, t) && Placed(f, t, live, phis)
    ensures phis[0] == {}
  {
    var s := phis[0 := {}];
    forall v: nat, a: nat, b: nat |
      a < |s| && b < |s| && Reachable(f.g, a) && DefOrPhi(f, s, a, v) && b in t.front[a] && v in live[b]
      ensures v in s[b]
    {
      assert DefOrPhi(f, phis, a, v) && ClosedFor(f, t, live, phis, v);
      assert InFrontier(f.g, a, b);
    }
    assert Closed(f, t, live, s);
    assert phis[0] <= s[0];
  }

  /** The operands of the result name existing results, as long as the source has only
      register and immediate operands. */
  lemma RenamedComplete(f: Func, t: DomTree, phis: seq<set<nat>>, g: Func)
    requires IsSource(f) && TreeOf(f.g, t) && g.Valid() && IsRenamed(f, t, phis, g) && phis[0] == {}
    ensures Complete(g)
  {
    hide TreeOf;
    EntryReachable(f.g);
    assert FilledPhis(f, t, phis, 0, g.blocks[0].phis);
    forall b: nat | b < |g.blocks| && Reachable(g.g, b)
      ensures CompleteBlock(g, b)
    {
      assert RenamedBlock(f, t, phis, b, g.blocks[b].insts, |f.blocks[b].insts|);
      assert FilledPhis(f, t, phis, b, g.blocks[b].phis);
      forall k: nat, j: nat | k < |g.blocks[b].insts| && j < |g.blocks[b].insts[k].args|
        ensures CompleteArg(g, g.blocks[b].insts[k].args[j])
      {
        RenamedArgComplete(f, t, phis, g, b, k, j);
      }
      forall id, p: nat | id in g.blocks[b].phis && p in g.blocks[b].phis[id] && IsPred(g.g, p, b)
        ensures CompleteArg(g, g.blocks[b].phis[id][p]) || g.blocks[b].phis[id][p] == Undef
      {
        RunEnds(f, p);
        if Out(f, t, phis, p, id).Some? {
          TopIsResult(f, t, phis, g, p, |f.blocks[p].insts|, id);
        }
      }
    }
  }

  lemma RunEnds(f: Func, p: nat)
    requires f.Valid() && Reachable(f.g, p)
    ensures p < |f.blocks|
  {
    var r :| RunTo(f.g, r, p);
    RunEndsInRange(f.g, r, p);
  }

  lemma RenamedArgComplete(f: Func, t: DomTree, phis: seq<set<nat>>, g: Func, b: nat, k: nat, j: nat)
    requires IsSource(f) && TreeOf(f.g, t) && IsRenamed(f, t, phis, g)
    requires b < |g.blocks| && Reachable(f.g, b) && k < |g.blocks[b].insts| && j < |g.blocks[b].insts[k].args|
    ensures CompleteArg(g, g.blocks[b].insts[k].args[j])
  {
    hide TreeOf;
    assert RenamedBlock(f, t, phis, b, g.blocks[b].insts, |f.blocks[b].insts|);
    var inst, inst' := f.blocks[b].insts[k], g.blocks[b].insts[k];
    assert RenamedInst(f, t, phis, b, k, inst', |inst'.args|);
    assert RenamedArg(f, t, phis, b, k, inst.args[j], inst'.args[j]);
    if inst.args[j].VReg? {
      TopIsResult(f, t, phis, g, b, k, inst.args[j].v);
    }
  }

  lemma TopIsResult(f: Func, t: DomTree, phis: seq<set<nat>>, g: Func, b: nat, k: nat, v: nat)
    requires f.Valid() && TreeOf(f.g, t) && IsRenamed(f, t, phis, g)
    requires b < |f.blocks| && Reachable(f.g, b) && k <= |f.blocks[b].insts| && TopAt(f, t, phis, b, k, v).Some?
    ensures IsResult(g, TopAt(f, t, phis, b, k, v).value)
  {
    hide TreeOf;
    var r := TopAt(f, t, phis, b, k, v).value;
    TopSound(f, t, phis, b, k, v);
    TopDominates(f, t, phis, b, k, v);
    DomIsReachable(f.g, r.b, b);
    assert RenamedBlock(f, t, phis, r.b, g.blocks[r.b].insts, |f.blocks[r.b].insts|);
    assert FilledPhis(f, t, phis, r.b, g.blocks[r.b].phis);
    if r.Res? {
      assert RenamedInst(f, t, phis, r.b, r.k, g.blocks[r.b].insts[r.k], |g.blocks[r.b].insts[r.k].args|);
    }
  }

  /** The whole pass: construction followed by the removal of dead PHI cycles. */
  method PhiPlacement(f: Func, t: DomTree, order: seq<nat>) returns (r: Result)
    requires IsSource(f) && TreeOf(f.g, t)
    requires forall b: nat :: b in order <==> b < |f.blocks| && Reachable(f.g, b)
    ensures r.Success? ==> r.f.Valid() && r.f.g == f.g && SameMeaning(f, r.f) && SameOps(f, r.f)
    ensures r.Success? ==> DefsDominateUses(r.f) && Complete(r.f)
    ensures r.Success? ==> forall p :: p in PhisOf(r.f) ==> FlowsToInst(r.f, p)
    ensures r.UndefinedVReg? <==> exists b: nat, k: nat, v: nat :: Reachable(f.g, b) && NeverDefined(f, b, k, v)
    ensures r.UndefinedVReg? ==> exists b: nat, k: nat :: Reachable(f.g, b) && NeverDefined(f, b, k, r.v)
  {
    r := Construct(f, t, order);
    if r.Success? {
      var g := RemoveDeadPhis(r.f);
      RemainingNeeded(r.f);
      SameMeaningTrans(f, r.f, g);
      SameOpsTrans(f, r.f, g);
      r := Success(g);
    }
  }
}
