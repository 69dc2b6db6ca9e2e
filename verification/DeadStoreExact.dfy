/** Erasing dead stores (passes/dead_store.cpp) keeps the meaning of a function exactly when
    every erased store is safe to erase. */
module DeadStoreExact {
  import opened Cfg
  import opened Options
  import opened StoreMachine
  import opened StoreFlow
  import opened DeadStore

  // ---------------------------------------------------------------- a run that tells

  ghost predicate DoomedId(f: Func, ins: map<nat, StoreMap>, id: nat) {
    exists b: nat, k: nat :: Doomed(f, ins, b, k) && f.blocks[b][k].id == id
  }

  /** Runs along a path; erased stores write ones, all others zeros, conditional stores fail. */
  ghost function Witness(f: Func, ins: map<nat, StoreMap>, p: seq<nat>): Oracle {
    Oracle(
      (id: nat, log, off) => if DoomedId(f, ins, id) then 1 else 0,
      (id, m, log) => (m, 0),
      (n: nat, log) =>
        if n + 1 < |p| && p[n] < |f.g.succs| && p[n + 1] in f.g.succs[p[n]] then First(f.g.succs[p[n]], p[n + 1])
          else 0,
      (id, log) => false,
      g => 0)
  }

  lemma Takes(f: Func, ins: map<nat, StoreMap>, p: seq<nat>, n: nat, log: seq<Event>)
    requires f.Formed() && Path(f.g, p) && n + 1 < |p|
    ensures f.g.succs[p[n]] != []
    ensures var i := Witness(f, ins, p).branch(n, log);
      i < |f.g.succs[p[n]]| && f.g.succs[p[n]][i] == p[n + 1]
  {
    assert Edge(f.g, p[n], p[n + 1]);
  }

  lemma SmallMod(i: nat, n: nat)
    requires i < n
    ensures i % n == i
  {
  }

  lemma {:induction false} Follows(f: Func, ins: map<nat, StoreMap>, p: seq<nat>, n: nat)
    requires f.Formed() && Path(f.g, p) && p[0] == 0 && n < |p|
    ensures Steps(f, Witness(f, ins, p), map[], n).At? && Steps(f, Witness(f, ins, p), map[], n).b == p[n]
  {
    hide Witness, Exec;
    if n > 0 {
      Follows(f, ins, p, n - 1);
      var o := Witness(f, ins, p);
      var s := Steps(f, o, map[], n - 1);
      var log := Exec(f.alone, f.blocks[s.b], o, s.m, s.log).1;
      Takes(f, ins, p, n - 1, log);
      SmallMod(o.branch(n - 1, log), |f.g.succs[s.b]|);
    }
  }

  ghost predicate NoOnes(m: Memory) {
    forall loc :: loc in m ==> m[loc] == 0
  }

  /** An instruction that stays is not one of the erased ones. */
  lemma StaysIsNotDoomed(f: Func, ins: map<nat, StoreMap>, b: nat, k: nat)
    requires f.Valid() && PlacedAt(f, b, k) && !Doomed(f, ins, b, k)
    ensures !DoomedId(f, ins, f.blocks[b][k].id)
  {
    hide Dies, Before;
    forall c: nat, j: nat | Doomed(f, ins, c, j)
      ensures f.blocks[c][j].id != f.blocks[b][k].id
    {
      assert PlacedAt(f, c, j);
    }
  }

  lemma KeptWritesNoOnes(f: Func, ins: map<nat, StoreMap>, p: seq<nat>, b: nat, k: nat, m: Memory, log: seq<Event>)
    requires f.Valid() && b < |f.blocks| && k < |f.blocks[b]| && !Dies(f.alone, f.blocks[b][k], Due(f, ins, b, k + 1))
    requires NoOnes(m)
    ensures NoOnes(Effect(f.alone, f.blocks[b][k], Witness(f, ins, p), m, log).0)
  {
    hide Dies, Before, DoomedId;
    if f.blocks[b][k].Store? {
      StaysIsNotDoomed(f, ins, b, k);
    }
  }

  lemma {:induction false} PointNoOnes(f: Func, ins: map<nat, StoreMap>, p: seq<nat>, s: State, s': State, k: nat)
    requires f.Valid() && s.At? && s'.At? && s.b < |f.blocks| && k <= |f.blocks[s.b]| && NoOnes(s'.m)
    ensures NoOnes(KeptPointOf(f, ins, Witness(f, ins, p), s.b, s', k).0)
  {
    hide Dies, Before, DoomedId, Witness, Kept, NoOnes;
    var o := Witness(f, ins, p);
    if k == 0 {
      KeptAll(f, ins, s.b);
    } else {
      PointNoOnes(f, ins, p, s, s', k - 1);
      PointStep(f, ins, o, s, s', k - 1);
      var (m', log') := KeptPointOf(f, ins, o, s.b, s', k - 1);
      if !Dies(f.alone, f.blocks[s.b][k - 1], Due(f, ins, s.b, k)) {
        KeptWritesNoOnes(f, ins, p, s.b, k - 1, m', log');
      }
    }
  }

  lemma {:induction false} StateNoOnes(f: Func, ins: map<nat, StoreMap>, p: seq<nat>, n: nat)
    requires f.Valid()
    ensures NoOnes(Steps(Erased(f, ins), Witness(f, ins, p), map[], n).m)
  {
    hide Witness, Kept, NoOnes;
    var o := Witness(f, ins, p);
    if n == 0 {
      NoOnesYet();
    } else {
      StateNoOnes(f, ins, p, n - 1);
      var s' := Steps(Erased(f, ins), o, map[], n - 1);
      if s'.At? {
        KeptAll(f, ins, s'.b);
        PointNoOnes(f, ins, p, s', s', |f.blocks[s'.b]|);
      }
    }
  }

  lemma NoOnesYet()
    ensures NoOnes(map[])
  {
  }

  // ---------------------------------------------------------------- following the shadow

  /** A chain of one: the store stays. */
  lemma LastLink(f: Func, ins: map<nat, StoreMap>, b: nat, k: nat, span: nat)
    requires f.Valid() && PlacedAt(f, b, k) && Survives(f, ins, f.blocks[b][k].id, span)
    ensures !Doomed(f, ins, b, k) && span == Span(f.blocks[b][k])
  {
    hide Before, Due;
    var b1: nat, k1: nat :| StaysAt(f, ins, b1, k1, f.blocks[b][k].id) && span == Span(f.blocks[b1][k1]);
    assert PlacedAt(f, b1, k1);
  }

  /** A longer chain: the store is erased because of the next one. */
  lemma FirstLink(f: Func, ins: map<nat, StoreMap>, b: nat, k: nat, next: nat)
    requires f.Valid() && PlacedAt(f, b, k) && ToGlobal(f.alone, f.blocks[b][k].addr).Some?
    requires Shadows(f, ins, f.blocks[b][k].id, next)
    ensures Doomed(f, ins, b, k) && Has(Due(f, ins, b, k + 1), ToGlobal(f.alone, f.blocks[b][k].addr).value, next)
  {
    hide Before, Due;
    var b1: nat, k1: nat :| ShadowedAt(f, ins, b1, k1, f.blocks[b][k].id, next);
    assert PlacedAt(f, b1, k1);
  }

  /** What the end of a chain says about its first store. */
  lemma ChainStep(f: Func, ins: map<nat, StoreMap>, b: nat, k: nat, span: nat)
    requires f.Valid() && PlacedAt(f, b, k) && ToGlobal(f.alone, f.blocks[b][k].addr).Some?
    requires Ends(f, ins, f.blocks[b][k].id, span)
    ensures Doomed(f, ins, b, k) ==>
      Ends(f, ins, Due(f, ins, b, k + 1)[ToGlobal(f.alone, f.blocks[b][k].addr).value], span)
    ensures !Doomed(f, ins, b, k) ==> span == Span(f.blocks[b][k])
  {
    var c :| IsChain(f, ins, c) && c[0] == f.blocks[b][k].id && Survives(f, ins, c[|c| - 1], span);
    if |c| == 1 {
      hide Doomed, Survives, Ends;
      LastLink(f, ins, b, k, span);
    } else {
      hide Shadows, Survives, Ends, Due;
      assert Shadows(f, ins, c[0], c[1]);
      FirstLink(f, ins, b, k, c[1]);
      TailChain(f, ins, c, span);
    }
  }

  lemma TailChain(f: Func, ins: map<nat, StoreMap>, c: seq<nat>, span: nat)
    requires |c| > 1 && IsChain(f, ins, c) && Survives(f, ins, c[|c| - 1], span)
    ensures Ends(f, ins, c[1], span)
  {
    hide Shadows, Survives;
    var d := c[1..];
    forall x: nat | x + 1 < |d|
      ensures Shadows(f, ins, d[x], d[x + 1])
    {
      assert Shadows(f, ins, c[x + 1], c[x + 2]);
    }
    assert d[|d| - 1] == c[|c| - 1];
  }

  /** At this point the byte holds a one and is to be overwritten by a store that spares it. */
  ghost predicate Armed(f: Func, ins: map<nat, StoreMap>, g: nat, span: nat, b: nat, k: nat, m: Memory)
    requires b < |f.blocks| && k <= |f.blocks[b]|
  {
    HoldsOne(g, span, m) && g in Due(f, ins, b, k) && Ends(f, ins, Due(f, ins, b, k)[g], span)
  }

  predicate HoldsOne(g: nat, off: int, m: Memory) {
    Byte(g, off) in m && m[Byte(g, off)] == 1
  }

  /** The byte keeps its one until the store that spares it. */
  lemma ArmedStep(f: Func, ins: map<nat, StoreMap>, p: seq<nat>, g: nat, span: nat, b: nat, k: nat, m: Memory,
                  log: seq<Event>)
    requires f.Valid() && b < |f.blocks| && k < |f.blocks[b]| && Armed(f, ins, g, span, b, k, m)
    ensures var m1 := Effect(f.alone, f.blocks[b][k], Witness(f, ins, p), m, log).0;
      Armed(f, ins, g, span, b, k + 1, m1) || (HoldsOne(g, span, m1) && g !in Due(f, ins, b, k + 1))
  {
    hide Before, Ends;
    var inst := f.blocks[b][k];
    DueStep(f, ins, b, k);
    if inst.Store? && ToGlobal(f.alone, inst.addr).Some? {
      StartEffect(f.alone, inst, ToGlobal(f.alone, inst.addr).value, Witness(f, ins, p), m, log);
    }
    if inst.Store? && ToGlobal(f.alone, inst.addr) == Some(g) {
      ChainStep(f, ins, b, k, span);
      if Doomed(f, ins, b, k) {
        assert DoomedId(f, ins, inst.id);
      }
    }
  }

  /** The state of the run at step n. */
  ghost function StateOn(f: Func, ins: map<nat, StoreMap>, p: seq<nat>, n: nat): (s: State)
    requires f.Formed() && Path(f.g, p) && p[0] == 0 && n < |p|
    ensures s.At? && s.b == p[n]
  {
    Follows(f, ins, p, n);
    Steps(f, Witness(f, ins, p), map[], n)
  }

  ghost predicate EndsOpen(f: Func, ins: map<nat, StoreMap>, p: seq<nat>)
    requires |p| > 0 && p[|p| - 1] < |f.g.succs|
  {
    f.g.succs[p[|p| - 1]] == [] || Held(ins, p[|p| - 1]) == map[]
  }

  lemma Walk(f: Func, ins: map<nat, StoreMap>, outs: map<nat, StoreMap>, p: seq<nat>, g: nat, span: nat, n: nat, k: nat)
      returns (n': nat, k': nat)
    requires f.Valid() && Solution(f, ins, outs) && Path(f.g, p) && p[0] == 0 && EndsOpen(f, ins, p)
    requires n < |p| && k <= |f.blocks[p[n]]|
    requires Armed(f, ins, g, span, p[n], k, PointOf(f, Witness(f, ins, p), StateOn(f, ins, p, n), k).0)
    ensures n' < |p| && k' <= |f.blocks[p[n']]|
    ensures HoldsOne(g, span, PointOf(f, Witness(f, ins, p), StateOn(f, ins, p, n'), k').0)
    ensures g !in Due(f, ins, p[n'], k')
    decreases |p| - n, |f.blocks[p[n]]| - k
  {
    hide Before, Ends, Witness, Solution, Kept;
    var o := Witness(f, ins, p);
    var s := StateOn(f, ins, p, n);
    var b := p[n];
    if k < |f.blocks[b]| {
      PointStep(f, ins, o, s, s, k);
      var (m, log) := PointOf(f, o, s, k);
      ArmedStep(f, ins, p, g, span, b, k, m, log);
      if g in Due(f, ins, b, k + 1) {
        n', k' := Walk(f, ins, outs, p, g, span, n, k + 1);
      } else {
        n', k' := n, k + 1;
      }
    } else {
      DueEnds(f, ins, b);
      if f.g.succs[b] == [] {
        NothingAfterExit(f, ins, outs, b);
      }
      assert n + 1 < |p|;
      NextBlock(f, ins, p, n);
      assert Edge(f.g, b, p[n + 1]);
      HeldIsDue(f, ins, outs, b, p[n + 1]);
      n', k' := Walk(f, ins, outs, p, g, span, n + 1, 0);
    }
  }

  /** The memory at the end of a block is the memory at the start of the next. */
  lemma NextBlock(f: Func, ins: map<nat, StoreMap>, p: seq<nat>, n: nat)
    requires f.Formed() && Path(f.g, p) && p[0] == 0 && n + 1 < |p|
    ensures PointOf(f, Witness(f, ins, p), StateOn(f, ins, p, n + 1), 0) ==
      PointOf(f, Witness(f, ins, p), StateOn(f, ins, p, n), |f.blocks[p[n]]|)
  {
    hide Witness;
    var b := p[n];
    assert f.blocks[b][..|f.blocks[b]|] == f.blocks[b];
    assert f.blocks[p[n + 1]][..0] == [];
    assert Edge(f.g, b, p[n + 1]);
  }

  /** A path through a reachable block that leads out of the function if the block can. */
  lemma PathThrough(f: Func, ins: map<nat, StoreMap>, outs: map<nat, StoreMap>, b: nat) returns (p: seq<nat>, n: nat)
    requires f.Valid() && Solution(f, ins, outs) && b < |f.blocks| && Reachable(f.g, b)
    ensures Path(f.g, p) && p[0] == 0 && n < |p| && p[n] == b && EndsOpen(f, ins, p)
  {
    hide Meet, Before;
    p :| RunTo(f.g, p, b);
    n := |p| - 1;
    assert BlockSolved(f, ins, outs, b);
    if b in ins {
      var q :| Path(f.g, q) && q[0] == b && f.g.succs[q[|q| - 1]] == [];
      Splice(f.g, p, q, 0);
      var r := p + q[1..];
      assert r[|r| - 1] == q[|q| - 1];
      p := r;
    }
  }

  // ---------------------------------------------------------------- unsafe erasures show

  lemma NarrowShows(f: Func, ins: map<nat, StoreMap>, outs: map<nat, StoreMap>, b: nat, k: nat, span: nat)
    requires f.Valid() && Solution(f, ins, outs) && Reachable(f.g, b) && Doomed(f, ins, b, k)
    requires !f.blocks[b][k].cond && Ends(f, ins, f.blocks[b][k].id, span) && span < f.blocks[b][k].width
    ensures !Simulates(f, ins)
  {
    hide Before, Ends, Witness, Solution, Kept;
    var p, n := PathThrough(f, ins, outs, b);
    var g := ToGlobal(f.alone, f.blocks[b][k].addr).value;
    var s := StateOn(f, ins, p, n);
    PointStep(f, ins, Witness(f, ins, p), s, s, k);
    var (m, log) := PointOf(f, Witness(f, ins, p), s, k);
    WritesOne(f, ins, p, b, k, span, m, log);
    ChainStep(f, ins, b, k, span);
    var n', k' := Walk(f, ins, outs, p, g, span, n, k + 1);
    OneShows(f, ins, p, g, span, n', k');
  }

  lemma WritesOne(f: Func, ins: map<nat, StoreMap>, p: seq<nat>, b: nat, k: nat, off: nat, m: Memory, log: seq<Event>)
    requires Doomed(f, ins, b, k) && !f.blocks[b][k].cond && off < f.blocks[b][k].width
    ensures HoldsOne(ToGlobal(f.alone, f.blocks[b][k].addr).value, off,
      Effect(f.alone, f.blocks[b][k], Witness(f, ins, p), m, log).0)
  {
    hide Before;
    assert DoomedId(f, ins, f.blocks[b][k].id);
    var inst := f.blocks[b][k];
    StartEffect(f.alone, inst, ToGlobal(f.alone, inst.addr).value, Witness(f, ins, p), m, log);
  }

  lemma OneShows(f: Func, ins: map<nat, StoreMap>, p: seq<nat>, g: nat, off: nat, n: nat, k: nat)
    requires f.Valid() && Path(f.g, p) && p[0] == 0 && n < |p| && k <= |f.blocks[p[n]]|
    requires HoldsOne(g, off, PointOf(f, Witness(f, ins, p), StateOn(f, ins, p, n), k).0) && g !in Due(f, ins, p[n], k)
    ensures !Simulates(f, ins)
  {
    hide Before, Witness, Kept;
    var o := Witness(f, ins, p);
    var s, s' := Steps(f, o, map[], n), Steps(Erased(f, ins), o, map[], n);
    Follows(f, ins, p, n);
    StateNoOnes(f, ins, p, n);
    if s'.At? {
      PointNoOnes(f, ins, p, s, s', k);
      assert !SameAt(Byte(g, off), PointOf(f, o, s, k).0, KeptPointOf(f, ins, o, s.b, s', k).0);
      assert !PointAgrees(f, ins, o, s, s', k);
    }
    assert !StateAgrees(f, ins, o, s, s');
  }

  lemma ConditionalShows(f: Func, ins: map<nat, StoreMap>, b: nat, k: nat)
    requires f.Valid() && Reachable(f.g, b) && Doomed(f, ins, b, k) && f.blocks[b][k].cond
    ensures !Simulates(f, ins)
  {
    hide Before, Witness, Kept;
    var p :| RunTo(f.g, p, b);
    var n: nat := |p| - 1;
    var o := Witness(f, ins, p);
    Follows(f, ins, p, n);
    var s, s' := Steps(f, o, map[], n), Steps(Erased(f, ins), o, map[], n);
    if s'.At? {
      PointStep(f, ins, o, s, s', k);
      assert !PointAgrees(f, ins, o, s, s', k) || !PointAgrees(f, ins, o, s, s', k + 1);
    }
    assert !StateAgrees(f, ins, o, s, s');
  }

  /** An erased store is wider than the store that stays in its stead. */
  ghost predicate Narrow(f: Func, ins: map<nat, StoreMap>, b: nat, k: nat, span: nat) {
    && Doomed(f, ins, b, k) && !f.blocks[b][k].cond
    && Ends(f, ins, f.blocks[b][k].id, span) && span < f.blocks[b][k].width
  }

  lemma SafeOrShows(f: Func, ins: map<nat, StoreMap>, b: nat, k: nat)
    requires Doomed(f, ins, b, k) && !f.blocks[b][k].cond && forall span :: !Narrow(f, ins, b, k, span)
    ensures SafeToErase(f, ins, b, k)
  {
    hide Ends, Before;
    forall span | Ends(f, ins, f.blocks[b][k].id, span)
      ensures f.blocks[b][k].width <= span
    {
      assert !Narrow(f, ins, b, k, span);
    }
  }

  /** The erased function simulates the original exactly when every erased store of a
      reachable block is unconditional and no wider than the store that stays in its stead. */
  lemma ErasureExact(f: Func, ins: map<nat, StoreMap>, outs: map<nat, StoreMap>)
    requires f.Valid() && Solution(f, ins, outs)
    ensures Simulates(f, ins) <==> AllSafe(f, ins)
  {
    hide Simulates, Solution, Ends;
    if AllSafe(f, ins) {
      SafeSimulates(f, ins, outs);
    }
    if b: nat, k: nat, span: nat :| Reachable(f.g, b) && Narrow(f, ins, b, k, span) {
      NarrowShows(f, ins, outs, b, k, span);
    }
    if b: nat, k: nat :| Reachable(f.g, b) && Doomed(f, ins, b, k) && f.blocks[b][k].cond {
      ConditionalShows(f, ins, b, k);
    }
    if forall b: nat, k: nat :: Reachable(f.g, b) && Doomed(f, ins, b, k) ==>
      !f.blocks[b][k].cond && forall span :: !Narrow(f, ins, b, k, span)
    {
      forall b: nat, k: nat | Reachable(f.g, b) && Doomed(f, ins, b, k)
        ensures SafeToErase(f, ins, b, k)
      {
        SafeOrShows(f, ins, b, k);
      }
    }
  }

  // ---------------------------------------------------------------- one width per atom

  /** All stores to a known atom are unconditional and have the same width. */
  ghost predicate OneWidth(f: Func) {
    forall b: nat, k: nat, c: nat, j: nat ::
      KnownStore(f, b, k) && KnownStore(f, c, j) &&
        ToGlobal(f.alone, f.blocks[b][k].addr) == ToGlobal(f.alone, f.blocks[c][j].addr) ==>
        !f.blocks[b][k].cond && f.blocks[b][k].width == f.blocks[c][j].width
  }

  predicate KnownStore(f: Func, b: nat, k: nat) {
    PlacedAt(f, b, k) && ToGlobal(f.alone, f.blocks[b][k].addr).Some?
  }

  lemma DueNamed(f: Func, ins: map<nat, StoreMap>, outs: map<nat, StoreMap>, b: nat, k: nat)
    requires f.Valid() && Solution(f, ins, outs) && b < |f.blocks| && k <= |f.blocks[b]|
    ensures Named(f, Due(f, ins, b, k))
  {
    hide Before, Meet, Named;
    assert BlockSolved(f, ins, outs, b);
    if b !in ins {
      NamedNothing(f);
    }
    BeforeNamed(f, b, k, Held(ins, b));
  }

  lemma NamedNothing(f: Func)
    ensures Named(f, map[])
  {
  }

  /** The store at the end of a chain has the width of the store at its start. */
  lemma {:induction false} ChainWidth(f: Func, ins: map<nat, StoreMap>, outs: map<nat, StoreMap>, c: seq<nat>,
                                      span: nat, b: nat, k: nat)
    requires f.Valid() && Solution(f, ins, outs) && OneWidth(f) && KnownStore(f, b, k)
    requires IsChain(f, ins, c) && c[0] == f.blocks[b][k].id && Survives(f, ins, c[|c| - 1], span)
    ensures span == f.blocks[b][k].width
    decreases |c|
  {
    hide Before, Solution;
    if |c| == 1 {
      var b1: nat, k1: nat :| StaysAt(f, ins, b1, k1, c[0]) && span == Span(f.blocks[b1][k1]);
      assert PlacedAt(f, b1, k1) && KnownStore(f, b1, k1);
    } else {
      assert Shadows(f, ins, c[0], c[1]);
      var b1: nat, k1: nat :| ShadowedAt(f, ins, b1, k1, c[0], c[1]);
      assert PlacedAt(f, b1, k1);
      DueNamed(f, ins, outs, b, k + 1);
      var g := ToGlobal(f.alone, f.blocks[b][k].addr).value;
      assert Names(f, g, c[1]);
      var b2: nat, k2: nat :| PlacedAt(f, b2, k2) && f.blocks[b2][k2].id == c[1] &&
        ToGlobal(f.alone, f.blocks[b2][k2].addr) == Some(g);
      assert KnownStore(f, b2, k2);
      forall x: nat | x + 1 < |c[1..]|
        ensures Shadows(f, ins, c[1..][x], c[1..][x + 1])
      {
        assert Shadows(f, ins, c[x + 1], c[x + 2]);
      }
      ChainWidth(f, ins, outs, c[1..], span, b2, k2);
    }
  }

  /** With one access width per atom the pass is sound. */
  lemma OneWidthSimulates(f: Func, ins: map<nat, StoreMap>, outs: map<nat, StoreMap>)
    requires f.Valid() && Solution(f, ins, outs) && OneWidth(f)
    ensures Simulates(f, ins)
  {
    hide Simulates, Solution, Before;
    forall b: nat, k: nat | Reachable(f.g, b) && Doomed(f, ins, b, k)
      ensures SafeToErase(f, ins, b, k)
    {
      assert KnownStore(f, b, k);
      forall span | Ends(f, ins, f.blocks[b][k].id, span)
        ensures span == f.blocks[b][k].width
      {
        var c :| IsChain(f, ins, c) && c[0] == f.blocks[b][k].id && Survives(f, ins, c[|c| - 1], span);
        ChainWidth(f, ins, outs, c, span, b, k);
      }
    }
    ErasureExact(f, ins, outs);
  }

  // ---------------------------------------------------------------- two stores in a row

  /** A function that stores twice to the same atom and returns. */
  function TwoStores(w: nat, c: bool, v: nat, d: bool): Func {
    Func(Graph([[]]), [[Store(0, Atom(7), w, c), Store(1, Atom(7), v, d)]], {7})
  }

  lemma TwoStoresSolved(w: nat, c: bool, v: nat, d: bool)
    requires w > 0 && v > 0
    ensures var f := TwoStores(w, c, v, d);
      && f.Valid() && Solution(f, map[0 := map[]], map[0 := map[7 := 0]])
      && Due(f, map[0 := map[]], 0, 1) == map[7 := 1] && Due(f, map[0 := map[]], 0, 2) == map[]
  {
    var f := TwoStores(w, c, v, d);
    var insts := f.blocks[0];
    assert insts[2..] == [] && insts[1..] == [insts[1]] && [insts[1]][1..] == [];
    assert Before(f.alone, insts[1..], map[]) == map[7 := 1];
    assert Before(f.alone, insts, map[]) == map[7 := 0];
    assert Path(f.g, [0]) && f.g.succs[0] == [];
    assert CanExit(f.g, 0);
  }

  /** The first of two stores in a row is erased; that is right exactly when it is not
      conditional and the second certainly writes at least as many bytes.  So a wide store
      followed by a narrow one, or by a conditional one, is erased wrongly. */
  lemma TwoStoresExact(w: nat, c: bool, v: nat, d: bool)
    requires w > 0 && v > 0
    ensures Simulates(TwoStores(w, c, v, d), map[0 := map[]]) <==> !c && !d && w <= v
  {
    hide Simulates, Solution, Before, Due, Ends;
    var f, ins: map<nat, StoreMap> := TwoStores(w, c, v, d), map[0 := map[]];
    TwoStoresSolved(w, c, v, d);
    ErasureExact(f, ins, map[0 := map[7 := 0]]);
    EntryReachable(f.g);
    TwoStoresEnd(w, c, v, d);
    assert f.blocks[0][0] == Store(0, Atom(7), w, c);
    var span := if d then 0 else v;
    assert Ends(f, ins, 0, span);
    assert SafeToErase(f, ins, 0, 0) <==> !c && w <= span;
    forall b: nat, k: nat | Doomed(f, ins, b, k)
      ensures b == 0 && k == 0
    {
      assert PlacedAt(f, b, k);
    }
  }

  lemma TwoStoresEnd(w: nat, c: bool, v: nat, d: bool)
    requires w > 0 && v > 0
    ensures var f, ins: map<nat, StoreMap> := TwoStores(w, c, v, d), map[0 := map[]];
      && Doomed(f, ins, 0, 0) && !Doomed(f, ins, 0, 1)
      && forall s :: Ends(f, ins, 0, s) <==> s == if d then 0 else v
  {
    hide Ends, Solution, Before, Due;
    var f, ins: map<nat, StoreMap> := TwoStores(w, c, v, d), map[0 := map[]];
    TwoStoresSolved(w, c, v, d);
    assert PlacedAt(f, 0, 0) && PlacedAt(f, 0, 1);
    assert Doomed(f, ins, 0, 0) && !Doomed(f, ins, 0, 1);
    var span := if d then 0 else v;
    assert StaysAt(f, ins, 0, 1, 1);
    EndsSelf(f, ins, 1, span);
    assert ShadowedAt(f, ins, 0, 0, 0, 1);
    EndsStep(f, ins, 0, 1, span);
    forall s | Ends(f, ins, 0, s)
      ensures s == span
    {
      ChainStep(f, ins, 0, 0, s);
      ChainStep(f, ins, 0, 1, s);
    }
  }
}
