/** The erasure step of passes/dead_store.cpp, and when it keeps the meaning of a function. */
module DeadStore {
  import opened Cfg
  import opened Options
  import opened StoreMachine
  import opened StoreFlow

  // ---------------------------------------------------------------- erasing

  /** A store to an atom that is overwritten anyway. */
  predicate Dies(alone: set<nat>, inst: Inst, after: StoreMap) {
    inst.Store? && ToGlobal(alone, inst.addr).Some? && ToGlobal(alone, inst.addr).value in after
  }

  function Kept(alone: set<nat>, insts: seq<Inst>, stores: StoreMap): seq<Inst> {
    if insts == [] then [] else
      var rest := Kept(alone, insts[1..], stores);
      if Dies(alone, insts[0], Before(alone, insts[1..], stores)) then rest else [insts[0]] + rest
  }

  function Erased(f: Func, ins: map<nat, StoreMap>): (g: Func)
    ensures f.Formed() ==> g.Formed()
  {
    f.(blocks := seq(|f.blocks|, b requires 0 <= b < |f.blocks| => Kept(f.alone, f.blocks[b], Held(ins, b))))
  }

  /** Erases backwards; the map is not updated at an erased store. */
  method EraseBlock(alone: set<nat>, insts: seq<Inst>, storesIn: StoreMap) returns (kept: seq<Inst>)
    ensures kept == Kept(alone, insts, storesIn)
  {
    var stores := storesIn;
    kept := [];
    var k: nat := |insts|;
    assert insts[|insts|..] == [];
    while k > 0
      invariant k <= |insts|
      invariant stores.Keys == Before(alone, insts[k..], storesIn).Keys
      invariant kept == Kept(alone, insts[k..], storesIn)
    {
      k := k - 1;
      assert insts[k..][0] == insts[k] && insts[k..][1..] == insts[k + 1..];
      if insts[k].Store? {
        var g := ToGlobal(alone, insts[k].addr);
        if g.Some? && g.value in stores {
          continue;
        }
      }
      kept := [insts[k]] + kept;
      stores := Visit(alone, insts[k], stores);
    }
    assert insts[0..] == insts;
  }

  /** The pass on one function. */
  method RemoveLocalDeadStores(f: Func) returns (g: Func, storesIn: map<nat, StoreMap>)
    requires f.Valid()
    ensures (exists storesOut :: Solution(f, storesIn, storesOut)) && g == Erased(f, storesIn)
    ensures g == f.(blocks := seq(|f.blocks|, b requires 0 <= b < |f.blocks| => Remaining(f, b, 0)))
  {
    hide Solution, Justified, Dead;
    var storesOut;
    storesIn, storesOut := Solve(f);
    var blocks := [];
    for b := 0 to |f.blocks|
      invariant |blocks| == b
      invariant forall c :: 0 <= c < b ==> blocks[c] == Kept(f.alone, f.blocks[c], Held(storesIn, c))
    {
      var kept := EraseBlock(f.alone, f.blocks[b], Held(storesIn, b));
      blocks := blocks + [kept];
    }
    g := f.(blocks := blocks);
    assert g.blocks == Erased(f, storesIn).blocks;
    forall b | 0 <= b < |f.blocks|
      ensures blocks[b] == Remaining(f, b, 0)
    {
      KeptExactly(f, storesIn, storesOut, b, 0);
      assert f.blocks[b][0..] == f.blocks[b];
    }
  }

  // ---------------------------------------------------------------- which stores are erased

  /** A store to the start of an atom that is alone in its object, which every way forward
      overwrites with one and the same later store before memory is looked at. */
  ghost predicate Dead(f: Func, b: nat, k: nat)
    requires f.Formed()
  {
    exists a: nat, id: nat :: DeadFor(f, b, k, a, id)
  }

  ghost predicate DeadFor(f: Func, b: nat, k: nat, a: nat, id: nat)
    requires f.Formed()
  {
    PlacedAt(f, b, k) && AtStart(f.alone, f.blocks[b][k].addr, a) && HasWay(f, b, k + 1, a, id)
  }

  /** The instructions of a block from k on without the dead stores. */
  ghost function Remaining(f: Func, b: nat, k: nat): seq<Inst>
    requires f.Formed() && b < |f.blocks| && k <= |f.blocks[b]|
    decreases |f.blocks[b]| - k
  {
    if k == |f.blocks[b]| then [] else
      (if Dead(f, b, k) then [] else [f.blocks[b][k]]) + Remaining(f, b, k + 1)
  }

  lemma {:induction false} KeptExactly(f: Func, ins: map<nat, StoreMap>, outs: map<nat, StoreMap>, b: nat, k: nat)
    requires f.Valid() && Solution(f, ins, outs) && Justified(f, ins) && b < |f.blocks| && k <= |f.blocks[b]|
    ensures Kept(f.alone, f.blocks[b][k..], Held(ins, b)) == Remaining(f, b, k)
    decreases |f.blocks[b]| - k
  {
    hide Solution, Justified, Before, HasWay;
    if k < |f.blocks[b]| {
      KeptExactly(f, ins, outs, b, k + 1);
      var inst := f.blocks[b][k];
      assert f.blocks[b][k..][0] == inst && f.blocks[b][k..][1..] == f.blocks[b][k + 1..];
      DiesExactly(f, ins, outs, b, k);
    } else {
      assert f.blocks[b][k..] == [];
    }
  }

  lemma DiesExactly(f: Func, ins: map<nat, StoreMap>, outs: map<nat, StoreMap>, b: nat, k: nat)
    requires f.Valid() && Solution(f, ins, outs) && Justified(f, ins) && b < |f.blocks| && k < |f.blocks[b]|
    ensures Dies(f.alone, f.blocks[b][k], Before(f.alone, f.blocks[b][k + 1..], Held(ins, b))) <==> Dead(f, b, k)
  {
    hide Solution, Justified, Before, HasWay;
    var inst := f.blocks[b][k];
    var after := Before(f.alone, f.blocks[b][k + 1..], Held(ins, b));
    if inst.Store? {
      forall a: nat, id: nat
        ensures Has(after, a, id) <==> HasWay(f, b, k + 1, a, id)
      {
        HeldExact(f, ins, outs, b, k + 1, a, id);
      }
      if Dies(f.alone, inst, after) {
        var a := ToGlobal(f.alone, inst.addr).value;
        assert AtStart(f.alone, inst.addr, a) && Has(after, a, after[a]);
        assert DeadFor(f, b, k, a, after[a]);
      }
      if a: nat, id: nat :| DeadFor(f, b, k, a, id) {
        assert Has(after, a, id) && ToGlobal(f.alone, inst.addr) == Some(a);
      }
    }
  }

  lemma {:induction false} KeptConcat(alone: set<nat>, s: seq<Inst>, t: seq<Inst>, stores: StoreMap)
    ensures Kept(alone, s + t, stores) == Kept(alone, s, Before(alone, t, stores)) + Kept(alone, t, stores)
  {
    if s == [] {
      assert s + t == t;
    } else {
      assert (s + t)[1..] == s[1..] + t;
      KeptConcat(alone, s[1..], t, stores);
      BeforeSplit(alone, s[1..] + t, |s| - 1, stores);
      assert (s[1..] + t)[..|s| - 1] == s[1..] && (s[1..] + t)[|s| - 1..] == t;
    }
  }

  // ---------------------------------------------------------------- points of a function

  /** What the analysis holds before instruction k of b. */
  function Due(f: Func, ins: map<nat, StoreMap>, b: nat, k: nat): StoreMap
    requires b < |f.blocks| && k <= |f.blocks[b]|
  {
    Before(f.alone, f.blocks[b][k..], Held(ins, b))
  }

  lemma DueStep(f: Func, ins: map<nat, StoreMap>, b: nat, k: nat)
    requires b < |f.blocks| && k < |f.blocks[b]|
    ensures Due(f, ins, b, k) == Visit(f.alone, f.blocks[b][k], Due(f, ins, b, k + 1))
  {
    assert f.blocks[b][k..][0] == f.blocks[b][k] && f.blocks[b][k..][1..] == f.blocks[b][k + 1..];
  }

  lemma DueEnds(f: Func, ins: map<nat, StoreMap>, b: nat)
    requires b < |f.blocks|
    ensures Due(f, ins, b, |f.blocks[b]|) == Held(ins, b)
    ensures Due(f, ins, b, 0) == Before(f.alone, f.blocks[b], Held(ins, b))
  {
    assert f.blocks[b][|f.blocks[b]|..] == [] && f.blocks[b][0..] == f.blocks[b];
  }

  /** The pass erases instruction k of b. */
  ghost predicate Doomed(f: Func, ins: map<nat, StoreMap>, b: nat, k: nat) {
    PlacedAt(f, b, k) && Dies(f.alone, f.blocks[b][k], Due(f, ins, b, k + 1))
  }

  /** The instructions before point k of b that are kept. */
  function KeptTo(f: Func, ins: map<nat, StoreMap>, b: nat, k: nat): seq<Inst>
    requires b < |f.blocks| && k <= |f.blocks[b]|
  {
    Kept(f.alone, f.blocks[b][..k], Due(f, ins, b, k))
  }

  lemma KeptStep(f: Func, ins: map<nat, StoreMap>, b: nat, k: nat)
    requires b < |f.blocks| && k < |f.blocks[b]|
    ensures KeptTo(f, ins, b, k + 1) ==
      KeptTo(f, ins, b, k) + if Dies(f.alone, f.blocks[b][k], Due(f, ins, b, k + 1)) then [] else [f.blocks[b][k]]
  {
    var inst, after := f.blocks[b][k], Due(f, ins, b, k + 1);
    assert f.blocks[b][..k + 1] == f.blocks[b][..k] + [inst];
    KeptConcat(f.alone, f.blocks[b][..k], [inst], after);
    assert [inst][1..] == [];
    assert Before(f.alone, [inst][1..], after) == after;
    assert Before(f.alone, [inst], after) == Visit(f.alone, inst, after);
    DueStep(f, ins, b, k);
  }

  lemma KeptAll(f: Func, ins: map<nat, StoreMap>, b: nat)
    requires b < |f.blocks|
    ensures KeptTo(f, ins, b, |f.blocks[b]|) == Erased(f, ins).blocks[b] && KeptTo(f, ins, b, 0) == []
  {
    DueEnds(f, ins, b);
    assert f.blocks[b][..|f.blocks[b]|] == f.blocks[b];
  }

  // ---------------------------------------------------------------- runs side by side

  /** The memories differ at most on the given atoms. */
  ghost predicate AgreeOff(atoms: set<nat>, m: Memory, m': Memory) {
    forall loc: Loc :: !(loc.Byte? && loc.g in atoms) ==> SameAt(loc, m, m')
  }

  lemma AgreeNowhere(m: Memory, m': Memory)
    requires AgreeOff({}, m, m')
    ensures m == m'
  {
    forall loc: Loc
      ensures loc in m <==> loc in m'
      ensures loc in m ==> m[loc] == m'[loc]
    {
      assert SameAt(loc, m, m');
    }
  }

  /** Memory and history at point k of the block at which s stands. */
  function PointOf(f: Func, o: Oracle, s: State, k: nat): (Memory, seq<Event>)
    requires s.At? && s.b < |f.blocks| && k <= |f.blocks[s.b]|
  {
    Exec(f.alone, f.blocks[s.b][..k], o, s.m, s.log)
  }

  function KeptPointOf(f: Func, ins: map<nat, StoreMap>, o: Oracle, b: nat, s: State, k: nat): (Memory, seq<Event>)
    requires s.At? && b < |f.blocks| && k <= |f.blocks[b]|
  {
    Exec(f.alone, KeptTo(f, ins, b, k), o, s.m, s.log)
  }

  ghost predicate PointAgrees(f: Func, ins: map<nat, StoreMap>, o: Oracle, s: State, s': State, k: nat)
    requires s.At? && s'.At? && s.b < |f.blocks| && k <= |f.blocks[s.b]|
  {
    var (m, log) := PointOf(f, o, s, k);
    var (m', log') := KeptPointOf(f, ins, o, s.b, s', k);
    log == log' && AgreeOff(Due(f, ins, s.b, k).Keys, m, m')
  }

  ghost predicate StateAgrees(f: Func, ins: map<nat, StoreMap>, o: Oracle, s: State, s': State)
    requires s.At? ==> s.b < |f.blocks|
  {
    && (s.Halted? ==> s' == s)
    && (s.At? ==> s'.At? && s'.b == s.b && forall k: nat :: k <= |f.blocks[s.b]| ==> PointAgrees(f, ins, o, s, s', k))
  }

  /** At every point of every run the histories are the same, the memories differ only on
      atoms that are due to be overwritten, and the function is left with the same memory. */
  ghost predicate Simulates(f: Func, ins: map<nat, StoreMap>)
    requires f.Formed()
  {
    forall o: Oracle, m0: Memory, n: nat :: StateAgrees(f, ins, o, Steps(f, o, m0, n), Steps(Erased(f, ins), o, m0, n))
  }

  /** Nothing is due where memory is looked at, so there the memories are equal. */
  lemma EqualWhereSeen(f: Func, ins: map<nat, StoreMap>, o: Oracle, s: State, s': State, k: nat)
    requires s.At? && s'.At? && s.b < |f.blocks| && k < |f.blocks[s.b]|
    requires PointAgrees(f, ins, o, s, s', k)
    requires f.blocks[s.b][k].Touch? ||
      (f.blocks[s.b][k].Store? && forall h: nat :: !AtStart(f.alone, f.blocks[s.b][k].addr, h))
    ensures KeptPointOf(f, ins, o, s.b, s', k) == PointOf(f, o, s, k)
  {
    DueStep(f, ins, s.b, k);
    assert Due(f, ins, s.b, k).Keys == {};
    AgreeNowhere(PointOf(f, o, s, k).0, KeptPointOf(f, ins, o, s.b, s', k).0);
  }

  // ---------------------------------------------------------------- when erasing is safe

  /** Store i is erased because store j overwrites its atom next. */
  ghost predicate Shadows(f: Func, ins: map<nat, StoreMap>, i: nat, j: nat) {
    exists b: nat, k: nat :: ShadowedAt(f, ins, b, k, i, j)
  }

  ghost predicate ShadowedAt(f: Func, ins: map<nat, StoreMap>, b: nat, k: nat, i: nat, j: nat) {
    && Doomed(f, ins, b, k) && f.blocks[b][k].id == i
    && Has(Due(f, ins, b, k + 1), ToGlobal(f.alone, f.blocks[b][k].addr).value, j)
  }

  /** The bytes a store is certain to overwrite. */
  function Span(inst: Inst): nat
    requires inst.Store?
  {
    if inst.cond then 0 else inst.width
  }

  /** Store id stays and certainly overwrites that many bytes of its atom. */
  ghost predicate Survives(f: Func, ins: map<nat, StoreMap>, id: nat, span: nat) {
    exists b: nat, k: nat :: StaysAt(f, ins, b, k, id) && span == Span(f.blocks[b][k])
  }

  ghost predicate StaysAt(f: Func, ins: map<nat, StoreMap>, b: nat, k: nat, id: nat) {
    && PlacedAt(f, b, k) && ToGlobal(f.alone, f.blocks[b][k].addr).Some?
    && f.blocks[b][k].id == id && !Doomed(f, ins, b, k)
  }

  ghost predicate IsChain(f: Func, ins: map<nat, StoreMap>, c: seq<nat>) {
    |c| > 0 && forall x: nat :: x + 1 < |c| ==> Shadows(f, ins, c[x], c[x + 1])
  }

  /** Following shadows from store id ends at a store that stays. */
  ghost predicate Ends(f: Func, ins: map<nat, StoreMap>, id: nat, span: nat) {
    exists c :: IsChain(f, ins, c) && c[0] == id && Survives(f, ins, c[|c| - 1], span)
  }

  /** The erased store is not conditional, and the store that stays in its stead overwrites
      all it would have written. */
  ghost predicate SafeToErase(f: Func, ins: map<nat, StoreMap>, b: nat, k: nat)
    requires PlacedAt(f, b, k)
  {
    !f.blocks[b][k].cond && forall span :: Ends(f, ins, f.blocks[b][k].id, span) ==> f.blocks[b][k].width <= span
  }

  ghost predicate AllSafe(f: Func, ins: map<nat, StoreMap>) {
    forall b: nat, k: nat :: Reachable(f.g, b) && Doomed(f, ins, b, k) ==> SafeToErase(f, ins, b, k)
  }

  lemma EndsSelf(f: Func, ins: map<nat, StoreMap>, id: nat, span: nat)
    requires Survives(f, ins, id, span)
    ensures Ends(f, ins, id, span)
  {
    assert IsChain(f, ins, [id]);
  }

  lemma EndsStep(f: Func, ins: map<nat, StoreMap>, i: nat, j: nat, span: nat)
    requires Shadows(f, ins, i, j) && Ends(f, ins, j, span)
    ensures Ends(f, ins, i, span)
  {
    hide Shadows, Survives;
    var c :| IsChain(f, ins, c) && c[0] == j && Survives(f, ins, c[|c| - 1], span);
    var d := [i] + c;
    forall x: nat | x + 1 < |d|
      ensures Shadows(f, ins, d[x], d[x + 1])
    {
      if x > 0 {
        assert Shadows(f, ins, c[x - 1], c[x]);
      }
    }
    assert IsChain(f, ins, d);
    assert d[|d| - 1] == c[|c| - 1];
  }

  // ---------------------------------------------------------------- safe erasures simulate

  /** Byte off of an atom whose next store is id will certainly be overwritten. */
  ghost predicate Covered(f: Func, ins: map<nat, StoreMap>, id: nat, off: int) {
    off >= 0 && forall span :: Ends(f, ins, id, span) ==> off < span
  }

  ghost predicate Pending(f: Func, ins: map<nat, StoreMap>, due: StoreMap, m: Memory, m': Memory) {
    forall loc: Loc :: SameAt(loc, m, m') || (loc.Byte? && loc.g in due && Covered(f, ins, due[loc.g], loc.off))
  }

  lemma PendingNothing(f: Func, ins: map<nat, StoreMap>, m: Memory, m': Memory)
    requires Pending(f, ins, map[], m, m')
    ensures m == m'
  {
    assert AgreeOff({}, m, m');
    AgreeNowhere(m, m');
  }

  lemma PendingGrows(f: Func, ins: map<nat, StoreMap>, due: StoreMap, due': StoreMap, m: Memory, m': Memory)
    requires Pending(f, ins, due, m, m') && Below(due, due')
    ensures Pending(f, ins, due', m, m')
  {
    hide Covered;
  }

  lemma PendingAgrees(f: Func, ins: map<nat, StoreMap>, due: StoreMap, m: Memory, m': Memory)
    requires Pending(f, ins, due, m, m')
    ensures AgreeOff(due.Keys, m, m')
  {
  }

  lemma StepDoomed(f: Func, ins: map<nat, StoreMap>, b: nat, k: nat, o: Oracle, m: Memory, m': Memory, log: seq<Event>)
    requires Doomed(f, ins, b, k) && SafeToErase(f, ins, b, k)
    requires Pending(f, ins, Due(f, ins, b, k), m, m')
    ensures var (m1, log1) := Effect(f.alone, f.blocks[b][k], o, m, log);
      log1 == log && Pending(f, ins, Due(f, ins, b, k + 1), m1, m')
  {
    hide Ends, Before;
    var inst := f.blocks[b][k];
    var g := ToGlobal(f.alone, inst.addr).value;
    var after := Due(f, ins, b, k + 1);
    DueStep(f, ins, b, k);
    assert ShadowedAt(f, ins, b, k, inst.id, after[g]);
    forall off: int | 0 <= off < inst.width || Covered(f, ins, inst.id, off)
      ensures Covered(f, ins, after[g], off)
    {
      forall span | Ends(f, ins, after[g], span)
        ensures off < span
      {
        EndsStep(f, ins, inst.id, after[g], span);
      }
    }
    var m1 := Effect(f.alone, inst, o, m, log).0;
    StartEffect(f.alone, inst, g, o, m, log);
    forall loc: Loc
      ensures SameAt(loc, m1, m') || (loc.Byte? && loc.g in after && Covered(f, ins, after[loc.g], loc.off))
    {
      assert SameAt(loc, m, m') || (loc.Byte? && loc.g in Due(f, ins, b, k) &&
        Covered(f, ins, Due(f, ins, b, k)[loc.g], loc.off));
    }
  }

  lemma StepKept(f: Func, ins: map<nat, StoreMap>, b: nat, k: nat, o: Oracle, m: Memory, m': Memory, log: seq<Event>)
    requires b < |f.blocks| && k < |f.blocks[b]| && !Dies(f.alone, f.blocks[b][k], Due(f, ins, b, k + 1))
    requires Pending(f, ins, Due(f, ins, b, k), m, m')
    ensures var (m1, log1) := Effect(f.alone, f.blocks[b][k], o, m, log);
      var (m1', log1') := Effect(f.alone, f.blocks[b][k], o, m', log);
      log1 == log1' && Pending(f, ins, Due(f, ins, b, k + 1), m1, m1')
  {
    hide Ends, Before;
    var inst, after := f.blocks[b][k], Due(f, ins, b, k + 1);
    DueStep(f, ins, b, k);
    if Due(f, ins, b, k) == map[] {
      PendingNothing(f, ins, m, m');
    }
    if inst.Store? && ToGlobal(f.alone, inst.addr).Some? {
      var g := ToGlobal(f.alone, inst.addr).value;
      assert StaysAt(f, ins, b, k, inst.id);
      EndsSelf(f, ins, inst.id, Span(inst));
      StartEffect(f.alone, inst, g, o, m, log);
      StartEffect(f.alone, inst, g, o, m', log);
      var m1, m1' := Effect(f.alone, inst, o, m, log).0, Effect(f.alone, inst, o, m', log).0;
      forall loc: Loc
        ensures SameAt(loc, m1, m1') || (loc.Byte? && loc.g in after && Covered(f, ins, after[loc.g], loc.off))
      {
        assert SameAt(loc, m, m') || (loc.Byte? && loc.g in Due(f, ins, b, k) &&
          Covered(f, ins, Due(f, ins, b, k)[loc.g], loc.off));
      }
    }
  }

  ghost predicate PointPending(f: Func, ins: map<nat, StoreMap>, o: Oracle, s: State, s': State, k: nat)
    requires s.At? && s'.At? && s.b < |f.blocks| && k <= |f.blocks[s.b]|
  {
    var (m, log) := PointOf(f, o, s, k);
    var (m', log') := KeptPointOf(f, ins, o, s.b, s', k);
    log == log' && Pending(f, ins, Due(f, ins, s.b, k), m, m')
  }

  lemma ExecOne(alone: set<nat>, inst: Inst, o: Oracle, m: Memory, log: seq<Event>)
    ensures Exec(alone, [inst], o, m, log) == Effect(alone, inst, o, m, log)
  {
    assert [inst][1..] == [];
  }

  /** The next point of a run, with and without the erased stores. */
  lemma PointStep(f: Func, ins: map<nat, StoreMap>, o: Oracle, s: State, s': State, k: nat)
    requires s.At? && s'.At? && s.b < |f.blocks| && k < |f.blocks[s.b]|
    ensures var (m, log) := PointOf(f, o, s, k);
      PointOf(f, o, s, k + 1) == Effect(f.alone, f.blocks[s.b][k], o, m, log)
    ensures var (m', log') := KeptPointOf(f, ins, o, s.b, s', k);
      KeptPointOf(f, ins, o, s.b, s', k + 1) ==
        if Dies(f.alone, f.blocks[s.b][k], Due(f, ins, s.b, k + 1)) then (m', log')
        else Effect(f.alone, f.blocks[s.b][k], o, m', log')
  {
    hide Kept, Before;
    var inst := f.blocks[s.b][k];
    assert f.blocks[s.b][..k + 1] == f.blocks[s.b][..k] + [inst];
    ExecAppend(f.alone, f.blocks[s.b][..k], [inst], o, s.m, s.log);
    var (m, log) := PointOf(f, o, s, k);
    ExecOne(f.alone, inst, o, m, log);
    KeptStep(f, ins, s.b, k);
    var (m', log') := KeptPointOf(f, ins, o, s.b, s', k);
    if Dies(f.alone, inst, Due(f, ins, s.b, k + 1)) {
      assert KeptTo(f, ins, s.b, k) + [] == KeptTo(f, ins, s.b, k);
    } else {
      ExecAppend(f.alone, KeptTo(f, ins, s.b, k), [inst], o, s'.m, s'.log);
      ExecOne(f.alone, inst, o, m', log');
    }
  }

  lemma {:induction false} BlockPending(f: Func, ins: map<nat, StoreMap>, o: Oracle, s: State, s': State, k: nat)
    requires s.At? && s'.At? && s.b < |f.blocks| && k <= |f.blocks[s.b]|
    requires Reachable(f.g, s.b) && AllSafe(f, ins)
    requires s'.log == s.log && Pending(f, ins, Due(f, ins, s.b, 0), s.m, s'.m)
    ensures PointPending(f, ins, o, s, s', k)
  {
    hide Pending, Kept, SafeToErase, Due;
    if k == 0 {
      KeptAll(f, ins, s.b);
      assert f.blocks[s.b][..0] == [];
    } else {
      BlockPending(f, ins, o, s, s', k - 1);
      PointStep(f, ins, o, s, s', k - 1);
      var (m, log) := PointOf(f, o, s, k - 1);
      var (m', log') := KeptPointOf(f, ins, o, s.b, s', k - 1);
      if Dies(f.alone, f.blocks[s.b][k - 1], Due(f, ins, s.b, k)) {
        assert Doomed(f, ins, s.b, k - 1);
        StepDoomed(f, ins, s.b, k - 1, o, m, m', log);
      } else {
        StepKept(f, ins, s.b, k - 1, o, m, m', log);
      }
    }
  }

  /** What holds at the end of a block is due at the start of each successor. */
  lemma HeldIsDue(f: Func, ins: map<nat, StoreMap>, outs: map<nat, StoreMap>, b: nat, t: nat)
    requires f.Valid() && Solution(f, ins, outs) && b < |f.blocks| && t in f.g.succs[b]
    ensures Below(Held(ins, b), Due(f, ins, t, 0))
  {
    hide Before, Meet, CanExit, Named;
    assert BlockSolved(f, ins, outs, b) && BlockSolved(f, ins, outs, t);
    DueEnds(f, ins, t);
    forall a | a in Held(ins, b)
      ensures Has(Due(f, ins, t, 0), a, Held(ins, b)[a])
    {
      assert Has(Meet(f.g, outs, b), a, Held(ins, b)[a]);
      assert Has(Held(outs, t), a, Held(ins, b)[a]);
    }
  }

  lemma NothingAfterExit(f: Func, ins: map<nat, StoreMap>, outs: map<nat, StoreMap>, b: nat)
    requires f.Valid() && Solution(f, ins, outs) && b < |f.blocks| && f.g.succs[b] == []
    ensures Held(ins, b) == map[]
  {
    assert BlockSolved(f, ins, outs, b);
  }

  ghost predicate StatePending(f: Func, ins: map<nat, StoreMap>, s: State, s': State)
    requires s.At? ==> s.b < |f.blocks|
  {
    && (s.Halted? ==> s' == s)
    && (s.At? ==> s'.At? && s'.b == s.b && s'.log == s.log && Pending(f, ins, Due(f, ins, s.b, 0), s.m, s'.m))
  }

  lemma StepPending(f: Func, ins: map<nat, StoreMap>, outs: map<nat, StoreMap>, o: Oracle, n: nat, s: State, s': State)
    requires f.Valid() && Solution(f, ins, outs) && AllSafe(f, ins)
    requires (s.At? ==> s.b < |f.blocks| && Reachable(f.g, s.b)) && StatePending(f, ins, s, s')
    ensures StatePending(f, ins, Step(f, o, n, s), Step(Erased(f, ins), o, n, s'))
  {
    hide Pending, Kept, AllSafe, Due, Solution;
    if s.At? {
      var b := s.b;
      BlockPending(f, ins, o, s, s', |f.blocks[b]|);
      KeptAll(f, ins, b);
      DueEnds(f, ins, b);
      assert f.blocks[b][..|f.blocks[b]|] == f.blocks[b];
      var (m, log) := PointOf(f, o, s, |f.blocks[b]|);
      var (m', log') := KeptPointOf(f, ins, o, b, s', |f.blocks[b]|);
      if f.g.succs[b] == [] {
        NothingAfterExit(f, ins, outs, b);
        PendingNothing(f, ins, m, m');
      } else {
        var t := f.g.succs[b][o.branch(n, log) % |f.g.succs[b]|];
        HeldIsDue(f, ins, outs, b, t);
        PendingGrows(f, ins, Held(ins, b), Due(f, ins, t, 0), m, m');
      }
    }
  }

  lemma StartPending(f: Func, ins: map<nat, StoreMap>, o: Oracle, m0: Memory)
    requires f.Valid()
    ensures StatePending(f, ins, Steps(f, o, m0, 0), Steps(Erased(f, ins), o, m0, 0))
  {
    hide Erased, Due;
  }

  lemma NextStep(f: Func, o: Oracle, m0: Memory, n: nat)
    requires f.Formed() && n > 0
    ensures Steps(f, o, m0, n) == Step(f, o, n - 1, Steps(f, o, m0, n - 1))
  {
  }

  lemma {:induction false} RunPending(f: Func, ins: map<nat, StoreMap>, outs: map<nat, StoreMap>, o: Oracle, m0: Memory,
                                      n: nat)
    requires f.Valid() && Solution(f, ins, outs) && AllSafe(f, ins)
    ensures StatePending(f, ins, Steps(f, o, m0, n), Steps(Erased(f, ins), o, m0, n))
  {
    hide AllSafe, Due, Solution, Pending, Erased, Reachable, Steps;
    if n == 0 {
      StartPending(f, ins, o, m0);
    } else {
      RunPending(f, ins, outs, o, m0, n - 1);
      if Steps(f, o, m0, n - 1).At? {
        StateReachable(f, o, m0, n - 1);
      }
      StepPending(f, ins, outs, o, n - 1, Steps(f, o, m0, n - 1), Steps(Erased(f, ins), o, m0, n - 1));
      NextStep(f, o, m0, n);
      NextStep(Erased(f, ins), o, m0, n);
    }
  }

  lemma SafeSimulates(f: Func, ins: map<nat, StoreMap>, outs: map<nat, StoreMap>)
    requires f.Valid() && Solution(f, ins, outs) && AllSafe(f, ins)
    ensures Simulates(f, ins)
  {
    hide AllSafe, Due, Solution, PointAgrees, Steps, Pending;
    forall o: Oracle, m0: Memory, n: nat
      ensures StateAgrees(f, ins, o, Steps(f, o, m0, n), Steps(Erased(f, ins), o, m0, n))
    {
      RunPending(f, ins, outs, o, m0, n);
      var s, s' := Steps(f, o, m0, n), Steps(Erased(f, ins), o, m0, n);
      if s.At? {
        StateReachable(f, o, m0, n);
        forall k: nat | k <= |f.blocks[s.b]|
          ensures PointAgrees(f, ins, o, s, s', k)
        {
          BlockPending(f, ins, o, s, s', k);
          PendingPoint(f, ins, o, s, s', k);
        }
      }
    }
  }

  lemma PendingPoint(f: Func, ins: map<nat, StoreMap>, o: Oracle, s: State, s': State, k: nat)
    requires s.At? && s'.At? && s.b < |f.blocks| && k <= |f.blocks[s.b]| && PointPending(f, ins, o, s, s', k)
    ensures PointAgrees(f, ins, o, s, s', k)
  {
    PendingAgrees(f, ins, Due(f, ins, s.b, k), PointOf(f, o, s, k).0, KeptPointOf(f, ins, o, s.b, s', k).0);
  }
}
