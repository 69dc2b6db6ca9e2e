/** The backward analysis of passes/dead_store.cpp: for each point, the atoms that every
    way forward overwrites before memory is looked at, with the store that does it. */
module StoreFlow {
  import opened Cfg
  import opened Options
  import opened StoreMachine

  type StoreMap = map<nat, nat>

  predicate Has(m: StoreMap, a: nat, id: nat) {
    a in m && m[a] == id
  }

  // ---------------------------------------------------------------- transfer through a block

  /** The visitor: what holds before an instruction, given what holds after it. */
  function Visit(alone: set<nat>, inst: Inst, stores: StoreMap): StoreMap {
    match inst
    case Pure => stores
    case Touch(_) => map[]
    case Store(id, addr, _, _) =>
      match ToGlobal(alone, addr)
      case None => map[]
      case Some(g) => stores[g := id]
  }

  function Before(alone: set<nat>, insts: seq<Inst>, stores: StoreMap): StoreMap {
    if insts == [] then stores else Visit(alone, insts[0], Before(alone, insts[1..], stores))
  }

  lemma {:induction false} BeforeSplit(alone: set<nat>, insts: seq<Inst>, k: nat, stores: StoreMap)
    requires k <= |insts|
    ensures Before(alone, insts, stores) == Before(alone, insts[..k], Before(alone, insts[k..], stores))
  {
    if k > 0 {
      BeforeSplit(alone, insts[1..], k - 1, stores);
      assert insts[1..][..k - 1] == insts[..k][1..];
      assert insts[1..][k - 1..] == insts[k..];
    } else {
      assert insts[..0] == [] && insts[0..] == insts;
    }
  }

  /** Every entry of a is an entry of b. */
  ghost predicate Below(a: StoreMap, b: StoreMap) {
    forall g :: g in a ==> g in b && b[g] == a[g]
  }

  lemma {:induction false} BeforeGrows(alone: set<nat>, insts: seq<Inst>, a: StoreMap, b: StoreMap)
    requires Below(a, b)
    ensures Below(Before(alone, insts, a), Before(alone, insts, b))
  {
    if insts != [] {
      BeforeGrows(alone, insts[1..], a, b);
    }
  }

  /** Some store with this identity writes atom g. */
  ghost predicate Names(f: Func, g: nat, id: nat) {
    exists b: nat, k: nat :: PlacedAt(f, b, k) && f.blocks[b][k].id == id &&
      ToGlobal(f.alone, f.blocks[b][k].addr) == Some(g)
  }

  ghost predicate Named(f: Func, m: StoreMap) {
    forall g :: g in m ==> g in f.alone && Names(f, g, m[g])
  }

  lemma {:induction false} BeforeNamed(f: Func, b: nat, k: nat, stores: StoreMap)
    requires b < |f.blocks| && k <= |f.blocks[b]| && Named(f, stores)
    ensures Named(f, Before(f.alone, f.blocks[b][k..], stores))
    decreases |f.blocks[b]| - k
  {
    if k < |f.blocks[b]| {
      BeforeNamed(f, b, k + 1, stores);
      var inst := f.blocks[b][k];
      assert f.blocks[b][k..][0] == inst && f.blocks[b][k..][1..] == f.blocks[b][k + 1..];
      if inst.Store? {
        assert PlacedAt(f, b, k);
      }
    }
  }

  // ---------------------------------------------------------------- the equations

  function Held(maps: map<nat, StoreMap>, b: nat): StoreMap {
    if b in maps then maps[b] else map[]
  }

  /** What all successors of b agree on; nothing after an exit. */
  function Meet(g: Graph, outs: map<nat, StoreMap>, b: nat): (m: StoreMap)
    requires b < |g.succs|
    ensures forall a, id :: Has(m, a, id) <==>
      |g.succs[b]| > 0 && forall s :: s in g.succs[b] ==> Has(Held(outs, s), a, id)
  {
    if g.succs[b] == [] then map[] else
      var first := Held(outs, g.succs[b][0]);
      map a | a in first && forall s :: s in g.succs[b] ==> Has(Held(outs, s), a, first[a]) :: first[a]
  }

  /** Some path from b leaves the function. */
  ghost predicate CanExit(g: Graph, b: nat) {
    exists q :: Path(g, q) && q[0] == b && g.succs[q[|q| - 1]] == []
  }

  lemma CanExitStep(g: Graph, b: nat, s: nat)
    requires g.Valid() && Edge(g, b, s) && CanExit(g, s)
    ensures CanExit(g, b)
  {
    var q :| Path(g, q) && q[0] == s && g.succs[q[|q| - 1]] == [];
    var r := [b] + q;
    assert Path(g, r) by {
      forall i | 0 <= i < |r| - 1
        ensures Edge(g, r[i], r[i + 1])
      {
        assert r[i + 1] == q[i];
        assert i > 0 ==> r[i] == q[i - 1];
      }
    }
    assert r[0] == b && r[|r| - 1] == q[|q| - 1];
  }

  // ---------------------------------------------------------------- ways forward

  /** The instruction neither looks at memory nor writes anything but the start of an atom that is
      alone in its object. */
  ghost predicate Harmless(alone: set<nat>, inst: Inst) {
    inst.Pure? || (inst.Store? && exists h: nat :: AtStart(alone, inst.addr, h))
  }

  /** Every way forward from point k of block b comes to store id, which writes to the start of
      atom a, through at most d further blocks that can all reach an exit, and meets no other
      store to a and nothing that may look at memory before. */
  ghost predicate Overwritten(f: Func, b: nat, k: nat, a: nat, id: nat, d: nat)
    requires f.Formed() && b < |f.blocks| && k <= |f.blocks[b]|
    decreases d, |f.blocks[b]| - k
  {
    if k < |f.blocks[b]| then
      var inst := f.blocks[b][k];
      if inst.Store? && AtStart(f.alone, inst.addr, a) then inst.id == id
      else Harmless(f.alone, inst) && Overwritten(f, b, k + 1, a, id, d)
    else
      d > 0 && f.g.succs[b] != [] && forall s :: s in f.g.succs[b] ==> WayThrough(f, s, a, id, d - 1)
  }

  ghost predicate WayThrough(f: Func, s: nat, a: nat, id: nat, d: nat)
    requires f.Formed()
    decreases d, if s < |f.blocks| then |f.blocks[s]| + 1 else 0
  {
    s < |f.blocks| && CanExit(f.g, s) && Overwritten(f, s, 0, a, id, d)
  }

  lemma {:induction false} LongerWay(f: Func, b: nat, k: nat, a: nat, id: nat, d: nat)
    requires f.Formed() && b < |f.blocks| && k <= |f.blocks[b]| && Overwritten(f, b, k, a, id, d)
    ensures Overwritten(f, b, k, a, id, d + 1)
    decreases d, |f.blocks[b]| - k
  {
    hide Harmless, CanExit;
    if k < |f.blocks[b]| {
      if !(f.blocks[b][k].Store? && AtStart(f.alone, f.blocks[b][k].addr, a)) {
        LongerWay(f, b, k + 1, a, id, d);
      }
    } else {
      forall s | s in f.g.succs[b]
        ensures WayThrough(f, s, a, id, d)
      {
        assert WayThrough(f, s, a, id, d - 1);
        LongerWay(f, s, 0, a, id, d - 1);
      }
    }
  }

  lemma {:induction false} MuchLongerWay(f: Func, b: nat, k: nat, a: nat, id: nat, d: nat, e: nat)
    requires f.Formed() && b < |f.blocks| && k <= |f.blocks[b]| && Overwritten(f, b, k, a, id, d) && d <= e
    ensures Overwritten(f, b, k, a, id, e)
    decreases e - d
  {
    hide Overwritten;
    if d < e {
      LongerWay(f, b, k, a, id, d);
      MuchLongerWay(f, b, k, a, id, d + 1, e);
    }
  }

  /** What the analysis holds before an instruction comes from there or from behind the block. */
  lemma {:induction false} BeforeWays(f: Func, b: nat, k: nat, stores: StoreMap, a: nat, id: nat, d: nat)
    requires f.Formed() && b < |f.blocks| && k <= |f.blocks[b]|
    requires Has(stores, a, id) ==> Overwritten(f, b, |f.blocks[b]|, a, id, d)
    requires Has(Before(f.alone, f.blocks[b][k..], stores), a, id)
    ensures Overwritten(f, b, k, a, id, d)
    decreases |f.blocks[b]| - k
  {
    hide CanExit;
    if k < |f.blocks[b]| {
      var inst := f.blocks[b][k];
      assert f.blocks[b][k..][0] == inst && f.blocks[b][k..][1..] == f.blocks[b][k + 1..];
      if !(inst.Store? && AtStart(f.alone, inst.addr, a)) {
        BeforeWays(f, b, k + 1, stores, a, id, d);
        assert inst.Store? ==> AtStart(f.alone, inst.addr, ToGlobal(f.alone, inst.addr).value);
      }
    } else {
      assert f.blocks[b][k..] == [];
    }
  }

  lemma {:induction false} WaysBefore(f: Func, b: nat, k: nat, stores: StoreMap, a: nat, id: nat, d: nat)
    requires f.Formed() && b < |f.blocks| && k <= |f.blocks[b]| && Overwritten(f, b, k, a, id, d)
    requires Overwritten(f, b, |f.blocks[b]|, a, id, d) ==> Has(stores, a, id)
    ensures Has(Before(f.alone, f.blocks[b][k..], stores), a, id)
    decreases |f.blocks[b]| - k
  {
    hide CanExit;
    if k < |f.blocks[b]| {
      var inst := f.blocks[b][k];
      assert f.blocks[b][k..][0] == inst && f.blocks[b][k..][1..] == f.blocks[b][k + 1..];
      if inst.Store? && AtStart(f.alone, inst.addr, a) {
        assert ToGlobal(f.alone, inst.addr) == Some(a);
      } else {
        WaysBefore(f, b, k + 1, stores, a, id, d);
        if h: nat :| inst.Store? && AtStart(f.alone, inst.addr, h) {
          assert ToGlobal(f.alone, inst.addr) == Some(h) && h != a;
        }
      }
    } else {
      assert f.blocks[b][k..] == [];
    }
  }

  /** Everything held has its way. */
  ghost predicate Justified(f: Func, ins: map<nat, StoreMap>)
    requires f.Formed()
  {
    forall b: nat, a: nat, id: nat :: b < |f.blocks| && Has(Held(ins, b), a, id) ==>
      HasWay(f, b, |f.blocks[b]|, a, id)
  }

  ghost predicate HasWay(f: Func, b: nat, k: nat, a: nat, id: nat)
    requires f.Formed() && b < |f.blocks| && k <= |f.blocks[b]|
  {
    exists d: nat :: Overwritten(f, b, k, a, id, d)
  }

  /** One bound for the first n successors. */
  lemma {:induction false} CommonWay(f: Func, b: nat, n: nat, a: nat, id: nat) returns (d: nat)
    requires f.Valid() && b < |f.blocks| && n <= |f.g.succs[b]|
    requires forall s :: s in f.g.succs[b] ==> s < |f.blocks| && CanExit(f.g, s) && HasWay(f, s, 0, a, id)
    ensures forall j :: 0 <= j < n ==> WayThrough(f, f.g.succs[b][j], a, id, d)
  {
    hide CanExit, Overwritten;
    if n == 0 {
      d := 0;
    } else {
      var e := CommonWay(f, b, n - 1, a, id);
      var s := f.g.succs[b][n - 1];
      assert HasWay(f, s, 0, a, id);
      var c: nat :| Overwritten(f, s, 0, a, id, c);
      d := if c > e then c else e;
      MuchLongerWay(f, s, 0, a, id, c, d);
      forall j | 0 <= j < n - 1
        ensures WayThrough(f, f.g.succs[b][j], a, id, d)
      {
        assert WayThrough(f, f.g.succs[b][j], a, id, e);
        MuchLongerWay(f, f.g.succs[b][j], 0, a, id, e, d);
      }
    }
  }

  /** The blocks that reach an exit satisfy the equations, the others hold nothing. */
  ghost predicate Solution(f: Func, ins: map<nat, StoreMap>, outs: map<nat, StoreMap>)
    requires f.Valid()
  {
    forall b: nat :: BlockSolved(f, ins, outs, b)
  }

  ghost predicate BlockSolved(f: Func, ins: map<nat, StoreMap>, outs: map<nat, StoreMap>, b: nat)
    requires f.Valid()
  {
    && (b in ins <==> b < |f.blocks| && CanExit(f.g, b))
    && (b in ins ==> ins[b] == Meet(f.g, outs, b) && Named(f, ins[b]))
    && (b in ins ==> b in outs && outs[b] == Before(f.alone, f.blocks[b], ins[b]))
    && (b !in ins ==> Held(outs, b) == map[])
  }

  // ---------------------------------------------------------------- the worklist

  /** One successor: keeps the entries on which it agrees. */
  function Agreeing(stores: StoreMap, outs: StoreMap): StoreMap {
    map a | a in stores && a in outs && outs[a] == stores[a] :: stores[a]
  }

  /** Finding no entry for a successor creates an empty one. */
  function Touched(outs: map<nat, StoreMap>, b: nat): (r: map<nat, StoreMap>)
    ensures b in r && forall c :: Held(r, c) == Held(outs, c)
  {
    if b in outs then outs else outs[b := map[]]
  }

  /** The first n successors agree on an entry. */
  ghost predicate AgreeTo(outs: map<nat, StoreMap>, succs: seq<nat>, n: nat, a: nat, id: nat)
    requires n <= |succs|
  {
    forall j :: 0 <= j < n ==> Has(Held(outs, succs[j]), a, id)
  }

  lemma AgreeNext(outs: map<nat, StoreMap>, succs: seq<nat>, n: nat, m: StoreMap, out: StoreMap)
    requires n < |succs| && out == Held(outs, succs[n])
    requires forall a, id :: Has(m, a, id) <==> AgreeTo(outs, succs, n, a, id)
    ensures forall a, id :: Has(Agreeing(m, out), a, id) <==> AgreeTo(outs, succs, n + 1, a, id)
  {
    forall a, id
      ensures Has(Agreeing(m, out), a, id) <==> AgreeTo(outs, succs, n + 1, a, id)
    {
      assert AgreeTo(outs, succs, n + 1, a, id) <==> AgreeTo(outs, succs, n, a, id) && Has(out, a, id);
      assert Has(m, a, id) <==> AgreeTo(outs, succs, n, a, id);
    }
  }

  lemma AgreeAll(g: Graph, outs: map<nat, StoreMap>, b: nat, m: StoreMap)
    requires b < |g.succs| && g.succs[b] != []
    requires forall a, id :: Has(m, a, id) <==> AgreeTo(outs, g.succs[b], |g.succs[b]|, a, id)
    ensures m == Meet(g, outs, b)
  {
    var n := Meet(g, outs, b);
    var succs := g.succs[b];
    forall a, id
      ensures Has(m, a, id) <==> Has(n, a, id)
    {
      assert Has(m, a, id) <==> AgreeTo(outs, succs, |succs|, a, id);
      if AgreeTo(outs, succs, |succs|, a, id) {
        assert forall s :: s in succs ==> Has(Held(outs, s), a, id);
      }
    }
    forall a
      ensures a in m <==> a in n
      ensures a in m ==> m[a] == n[a]
    {
      if a in m {
        assert Has(m, a, m[a]);
      }
      if a in n {
        assert Has(n, a, n[a]);
      }
    }
  }

  method MeetSuccessors(f: Func, outs0: map<nat, StoreMap>, b: nat) returns (m: StoreMap, outs: map<nat, StoreMap>)
    requires f.Valid() && b < |f.blocks|
    ensures m == Meet(f.g, outs0, b)
    ensures forall c :: Held(outs, c) == Held(outs0, c)
    ensures forall c :: c in outs0 ==> c in outs
  {
    hide Meet, AgreeTo;
    m, outs := map[], outs0;
    var succs := f.g.succs[b];
    if succs == [] {
      NoSuccessors(f.g, outs0, b);
    } else {
      outs := Touched(outs, succs[0]);
      m := outs[succs[0]];
      AgreeFirst(outs0, succs, m);
      for i := 1 to |succs|
        invariant forall c :: Held(outs, c) == Held(outs0, c)
        invariant forall c :: c in outs0 ==> c in outs
        invariant forall a, id :: Has(m, a, id) <==> AgreeTo(outs0, succs, i, a, id)
      {
        outs := Touched(outs, succs[i]);
        assert outs[succs[i]] == Held(outs, succs[i]);
        AgreeNext(outs0, succs, i, m, outs[succs[i]]);
        m := Agreeing(m, outs[succs[i]]);
      }
      AgreeAll(f.g, outs0, b, m);
    }
  }

  lemma NoSuccessors(g: Graph, outs: map<nat, StoreMap>, b: nat)
    requires b < |g.succs| && g.succs[b] == []
    ensures Meet(g, outs, b) == map[]
  {
  }

  lemma AgreeFirst(outs: map<nat, StoreMap>, succs: seq<nat>, m: StoreMap)
    requires succs != [] && m == Held(outs, succs[0])
    ensures forall a, id :: Has(m, a, id) <==> AgreeTo(outs, succs, 1, a, id)
  {
  }

  method TransferBlock(f: Func, b: nat, stores: StoreMap) returns (out: StoreMap)
    requires b < |f.blocks|
    ensures out == Before(f.alone, f.blocks[b], stores)
  {
    var insts := f.blocks[b];
    out := stores;
    var k: nat := |insts|;
    assert insts[|insts|..] == [];
    while k > 0
      invariant k <= |insts|
      invariant out == Before(f.alone, insts[k..], stores)
    {
      k := k - 1;
      assert insts[k..][0] == insts[k] && insts[k..][1..] == insts[k + 1..];
      out := Visit(f.alone, insts[k], out);
    }
    assert insts[0..] == insts;
  }

  /** What the worklist keeps of block b: its equation may be pending while b is queued. */
  ghost predicate BlockWorking(f: Func, ins: map<nat, StoreMap>, outs: map<nat, StoreMap>, q: seq<nat>, b: nat)
    requires f.Valid()
  {
    && (b in q || b in ins ==> b < |f.blocks| && CanExit(f.g, b))
    && (b in ins ==>
          && b in outs && outs[b] == Before(f.alone, f.blocks[b], ins[b])
          && Below(ins[b], Meet(f.g, outs, b))
          && (b !in q ==> ins[b] == Meet(f.g, outs, b))
          && Named(f, ins[b]))
    && (b !in ins ==> Held(outs, b) == map[])
    && (b < |f.blocks| && (f.g.succs[b] == [] || exists s :: s in f.g.succs[b] && s in ins) ==> b in ins || b in q)
  }

  ghost predicate Working(f: Func, ins: map<nat, StoreMap>, outs: map<nat, StoreMap>, q: seq<nat>)
    requires f.Valid()
  {
    forall b: nat :: BlockWorking(f, ins, outs, q, b)
  }

  lemma AllProcessed(f: Func, ins: map<nat, StoreMap>, outs: map<nat, StoreMap>)
    requires f.Valid() && Working(f, ins, outs, [])
    ensures Solution(f, ins, outs)
  {
    hide Working, BlockSolved;
    forall b: nat
      ensures BlockSolved(f, ins, outs, b)
    {
      OneProcessed(f, ins, outs, b);
    }
  }

  lemma OneProcessed(f: Func, ins: map<nat, StoreMap>, outs: map<nat, StoreMap>, b: nat)
    requires f.Valid() && Working(f, ins, outs, [])
    ensures BlockSolved(f, ins, outs, b)
  {
    hide Meet, Before;
    assert BlockWorking(f, ins, outs, [], b);
    if b < |f.blocks| && CanExit(f.g, b) {
      var p :| Path(f.g, p) && p[0] == b && f.g.succs[p[|p| - 1]] == [];
      PathProcessed(f, ins, outs, p);
    }
  }

  lemma {:induction false} PathProcessed(f: Func, ins: map<nat, StoreMap>, outs: map<nat, StoreMap>, p: seq<nat>)
    requires f.Valid() && Working(f, ins, outs, [])
    requires Path(f.g, p) && f.g.succs[p[|p| - 1]] == []
    ensures p[0] in ins
  {
    hide Meet, Before;
    assert BlockWorking(f, ins, outs, [], p[0]);
    if |p| > 1 {
      assert Edge(f.g, p[0], p[1]);
      assert Path(f.g, p[1..]) by {
        forall i | 0 <= i < |p[1..]| - 1
          ensures Edge(f.g, p[1..][i], p[1..][i + 1])
        {
          assert Edge(f.g, p[i + 1], p[i + 2]);
        }
      }
      PathProcessed(f, ins, outs, p[1..]);
    }
  }

  /** The pairs still to be found: blocks not yet processed and entries not yet made. */
  datatype Fact = Done(b: nat) | Entry(b: nat, g: nat)

  ghost function Missing(f: Func, ins: map<nat, StoreMap>): set<Fact> {
    (set b: nat | b < |f.blocks| && b !in ins :: Done(b)) +
    (set b: nat, g: nat | b < |f.blocks| && g in f.alone && g !in Held(ins, b) :: Entry(b, g))
  }

  lemma MeetGrows(f: Func, outs: map<nat, StoreMap>, outs': map<nat, StoreMap>, c: nat)
    requires c < |f.g.succs| && forall b :: Below(Held(outs, b), Held(outs', b))
    ensures Below(Meet(f.g, outs, c), Meet(f.g, outs', c))
  {
    forall a | a in Meet(f.g, outs, c)
      ensures a in Meet(f.g, outs', c) && Meet(f.g, outs', c)[a] == Meet(f.g, outs, c)[a]
    {
      var id := Meet(f.g, outs, c)[a];
      assert Has(Meet(f.g, outs, c), a, id);
      assert Has(Meet(f.g, outs', c), a, id);
    }
  }

  lemma MeetNamed(f: Func, outs: map<nat, StoreMap>, b: nat)
    requires b < |f.g.succs| && forall s: nat :: Named(f, Held(outs, s))
    ensures Named(f, Meet(f.g, outs, b))
  {
    hide Names;
    forall a | a in Meet(f.g, outs, b)
      ensures a in f.alone && Names(f, a, Meet(f.g, outs, b)[a])
    {
      assert Has(Meet(f.g, outs, b), a, Meet(f.g, outs, b)[a]);
      assert Has(Held(outs, f.g.succs[b][0]), a, Meet(f.g, outs, b)[a]);
    }
  }

  lemma OutsNamed(f: Func, ins: map<nat, StoreMap>, outs: map<nat, StoreMap>, q: seq<nat>)
    requires f.Valid() && Working(f, ins, outs, q)
    ensures forall s: nat :: Named(f, Held(outs, s))
  {
    hide Names, Meet;
    forall s: nat
      ensures Named(f, Held(outs, s))
    {
      assert BlockWorking(f, ins, outs, q, s);
      if s in ins {
        BeforeNamed(f, s, 0, ins[s]);
        assert f.blocks[s][0..] == f.blocks[s];
      }
    }
  }

  lemma SameMeet(g: Graph, outs: map<nat, StoreMap>, outs': map<nat, StoreMap>, b: nat)
    requires b < |g.succs| && forall c :: c in g.succs[b] ==> Held(outs', c) == Held(outs, c)
    ensures Meet(g, outs', b) == Meet(g, outs, b)
  {
  }

  /** A processed block whose entries did not change leaves nothing pending. */
  lemma Unchanged(f: Func, ins: map<nat, StoreMap>, outs: map<nat, StoreMap>, outs': map<nat, StoreMap>, q: seq<nat>)
    requires f.Valid() && q != [] && Working(f, ins, outs, q) && q[0] < |f.blocks|
    requires q[0] in ins && ins[q[0]] == Meet(f.g, outs, q[0])
    requires forall c :: Held(outs', c) == Held(outs, c)
    requires forall c :: c in outs ==> c in outs'
    ensures Working(f, ins, outs', q[1..])
  {
    hide Meet, Before, CanExit;
    forall b: nat
      ensures BlockWorking(f, ins, outs', q[1..], b)
    {
      assert BlockWorking(f, ins, outs, q, b);
      assert b in q ==> b in q[1..] || b == q[0];
      assert Held(outs', b) == Held(outs, b);
      if b in ins {
        SameMeet(f.g, outs, outs', b);
      }
    }
  }

  lemma Changed(f: Func, ins: map<nat, StoreMap>, outs: map<nat, StoreMap>, outs': map<nat, StoreMap>, q: seq<nat>,
                m: StoreMap)
    requires f.Valid() && q != [] && Working(f, ins, outs, q) && q[0] < |f.blocks|
    requires m == Meet(f.g, outs, q[0])
    requires forall c :: Held(outs', c) == Held(outs, c)
    requires forall c :: c in outs ==> c in outs'
    ensures Working(f, ins[q[0] := m], outs'[q[0] := Before(f.alone, f.blocks[q[0]], m)], q[1..] + Preds(f.g, q[0]))
  {
    hide Meet, Before, CanExit, Working, BlockWorking;
    var b := q[0];
    OutsNamed(f, ins, outs, q);
    MeetNamed(f, outs, b);
    OutGrows(f, ins, outs, outs', q, m);
    var ins1, outs1, q1 := ins[b := m], outs'[b := Before(f.alone, f.blocks[b], m)], q[1..] + Preds(f.g, b);
    forall c: nat
      ensures BlockWorking(f, ins1, outs1, q1, c)
    {
      ChangedBlock(f, ins, outs, outs', q, m, c);
    }
    WorkingBlocks(f, ins1, outs1, q1);
  }

  lemma WorkingBlocks(f: Func, ins: map<nat, StoreMap>, outs: map<nat, StoreMap>, q: seq<nat>)
    requires f.Valid() && forall b: nat :: BlockWorking(f, ins, outs, q, b)
    ensures Working(f, ins, outs, q)
  {
  }

  lemma ChangedBlock(f: Func, ins: map<nat, StoreMap>, outs: map<nat, StoreMap>, outs': map<nat, StoreMap>, q: seq<nat>,
      m: StoreMap, c: nat)
    requires f.Valid() && q != [] && Working(f, ins, outs, q) && q[0] < |f.blocks|
    requires m == Meet(f.g, outs, q[0]) && Named(f, m)
    requires forall c :: Held(outs', c) == Held(outs, c)
    requires forall c :: c in outs ==> c in outs'
    requires forall c :: Below(Held(outs, c), Held(outs'[q[0] := Before(f.alone, f.blocks[q[0]], m)], c))
    ensures BlockWorking(f, ins[q[0] := m], outs'[q[0] := Before(f.alone, f.blocks[q[0]], m)],
      q[1..] + Preds(f.g, q[0]), c)
  {
    hide Meet, Before, CanExit, Below, Named;
    var b := q[0];
    var outs1 := outs'[b := Before(f.alone, f.blocks[b], m)];
    assert BlockWorking(f, ins, outs, q, b) && BlockWorking(f, ins, outs, q, c);
    assert Held(outs', c) == Held(outs, c);
    assert c in q ==> c in q[1..] || c == b;
    assert c in Preds(f.g, b) <==> Edge(f.g, c, b);
    if Edge(f.g, c, b) {
      CanExitStep(f.g, c, b);
    }
    if c in ins || c == b {
      BelowRefl(m);
      BelowTrans(f, outs, outs1, c, if c == b then m else ins[c]);
      if c !in q[1..] + Preds(f.g, b) {
        forall d | d in f.g.succs[c]
          ensures Held(outs1, d) == Held(outs, d)
        {
          assert d != b;
          assert Held(outs1, d) == Held(outs', d);
        }
        SameMeet(f.g, outs, outs1, c);
      }
    }
  }

  lemma BelowRefl(m: StoreMap)
    ensures Below(m, m)
  {
  }

  lemma BelowTrans(f: Func, outs: map<nat, StoreMap>, outs': map<nat, StoreMap>, c: nat, m: StoreMap)
    requires c < |f.g.succs| && Below(m, Meet(f.g, outs, c)) && forall b :: Below(Held(outs, b), Held(outs', b))
    ensures Below(m, Meet(f.g, outs', c))
  {
    hide Meet;
    MeetGrows(f, outs, outs', c);
  }

  lemma OutGrows(f: Func, ins: map<nat, StoreMap>, outs: map<nat, StoreMap>, outs': map<nat, StoreMap>, q: seq<nat>,
                 m: StoreMap)
    requires f.Valid() && q != [] && Working(f, ins, outs, q) && q[0] < |f.blocks|
    requires m == Meet(f.g, outs, q[0])
    requires forall c :: Held(outs', c) == Held(outs, c)
    ensures forall c :: Below(Held(outs, c), Held(outs'[q[0] := Before(f.alone, f.blocks[q[0]], m)], c))
  {
    hide Meet, Before, CanExit;
    var b := q[0];
    assert BlockWorking(f, ins, outs, q, b);
    if b in ins {
      BeforeGrows(f.alone, f.blocks[b], ins[b], m);
    }
    forall c
      ensures Below(Held(outs, c), Held(outs'[b := Before(f.alone, f.blocks[b], m)], c))
    {
      assert Held(outs', c) == Held(outs, c);
    }
  }

  lemma NewEntry(a: StoreMap, b: StoreMap) returns (g: nat)
    requires Below(a, b) && a != b
    ensures g in b && g !in a
  {
    assert exists g :: g in b && g !in a by {
      assert b.Keys == a.Keys ==> a == b;
    }
    g :| g in b && g !in a;
  }

  lemma Progress(f: Func, ins: map<nat, StoreMap>, outs: map<nat, StoreMap>, q: seq<nat>)
    requires f.Valid() && q != [] && Working(f, ins, outs, q) && q[0] < |f.blocks|
    requires q[0] in ins ==> ins[q[0]] != Meet(f.g, outs, q[0])
    ensures Missing(f, ins[q[0] := Meet(f.g, outs, q[0])]) < Missing(f, ins)
  {
    hide Meet, Before, CanExit;
    var b := q[0];
    var m := Meet(f.g, outs, b);
    OutsNamed(f, ins, outs, q);
    MeetNamed(f, outs, b);
    assert BlockWorking(f, ins, outs, q, b);
    MissingShrinks(f, ins, b, m);
  }

  lemma MissingShrinks(f: Func, ins: map<nat, StoreMap>, b: nat, m: StoreMap)
    requires b < |f.blocks| && Named(f, m)
    requires b in ins ==> ins[b] != m && Below(ins[b], m)
    ensures Missing(f, ins[b := m]) < Missing(f, ins)
  {
    var ins1 := ins[b := m];
    forall x | x in Missing(f, ins1)
      ensures x in Missing(f, ins)
    {
      if x.Entry? && x.b == b {
        assert x.g !in Held(ins, b);
      }
    }
    if b !in ins {
      assert Done(b) in Missing(f, ins) && Done(b) !in Missing(f, ins1);
    } else {
      var g := NewEntry(ins[b], m);
      assert Entry(b, g) in Missing(f, ins) && Entry(b, g) !in Missing(f, ins1);
    }
  }

  lemma OutHasWay(f: Func, ins: map<nat, StoreMap>, outs: map<nat, StoreMap>, q: seq<nat>, s: nat, a: nat, id: nat)
    requires f.Valid() && Working(f, ins, outs, q) && Justified(f, ins) && Has(Held(outs, s), a, id)
    ensures s < |f.blocks| && CanExit(f.g, s) && HasWay(f, s, 0, a, id)
  {
    hide Meet, Before, CanExit, Overwritten;
    assert BlockWorking(f, ins, outs, q, s);
    assert f.blocks[s][0..] == f.blocks[s];
    if Has(ins[s], a, id) {
      assert HasWay(f, s, |f.blocks[s]|, a, id);
      var d: nat :| Overwritten(f, s, |f.blocks[s]|, a, id, d);
      BeforeWays(f, s, 0, ins[s], a, id, d);
    } else {
      BeforeWays(f, s, 0, ins[s], a, id, 0);
    }
  }

  /** What the successors agree on has its way. */
  lemma MeetJustified(f: Func, ins: map<nat, StoreMap>, outs: map<nat, StoreMap>, q: seq<nat>, b: nat)
    requires f.Valid() && Working(f, ins, outs, q) && Justified(f, ins) && b < |f.blocks|
    ensures Justified(f, ins[b := Meet(f.g, outs, b)])
  {
    hide Meet, CanExit, Working, HasWay;
    var m := Meet(f.g, outs, b);
    forall c: nat, a: nat, id: nat | c < |f.blocks| && Has(Held(ins[b := m], c), a, id)
      ensures HasWay(f, c, |f.blocks[c]|, a, id)
    {
      if c == b {
        forall s | s in f.g.succs[b]
          ensures s < |f.blocks| && CanExit(f.g, s) && HasWay(f, s, 0, a, id)
        {
          OutHasWay(f, ins, outs, q, s, a, id);
        }
        var d := CommonWay(f, b, |f.g.succs[b]|, a, id);
        ShowWay(f, b, a, id, d);
      } else {
        assert Held(ins[b := m], c) == Held(ins, c);
      }
    }
  }

  lemma ShowWay(f: Func, b: nat, a: nat, id: nat, d: nat)
    requires f.Valid() && b < |f.blocks| && f.g.succs[b] != []
    requires forall j :: 0 <= j < |f.g.succs[b]| ==> WayThrough(f, f.g.succs[b][j], a, id, d)
    ensures HasWay(f, b, |f.blocks[b]|, a, id)
  {
    hide WayThrough;
    assert Overwritten(f, b, |f.blocks[b]|, a, id, d + 1);
  }

  /** A way forward is found: what is overwritten on every way is held. */
  lemma {:induction false} OverwrittenIsHeld(f: Func, ins: map<nat, StoreMap>, outs: map<nat, StoreMap>, b: nat, k: nat,
                                             a: nat, id: nat, d: nat)
    requires f.Valid() && Solution(f, ins, outs) && b < |f.blocks| && k <= |f.blocks[b]|
    requires Overwritten(f, b, k, a, id, d)
    ensures Has(Before(f.alone, f.blocks[b][k..], Held(ins, b)), a, id)
    decreases d, 1, k
  {
    hide Meet, Before, CanExit, Solution;
    if Overwritten(f, b, |f.blocks[b]|, a, id, d) {
      EndIsHeld(f, ins, outs, b, a, id, d);
    }
    WaysBefore(f, b, k, Held(ins, b), a, id, d);
  }

  lemma {:induction false} EndIsHeld(f: Func, ins: map<nat, StoreMap>, outs: map<nat, StoreMap>, b: nat, a: nat,
                                     id: nat, d: nat)
    requires f.Valid() && Solution(f, ins, outs) && b < |f.blocks| && Overwritten(f, b, |f.blocks[b]|, a, id, d)
    ensures Has(Held(ins, b), a, id)
    decreases d, 0
  {
    hide Meet, Before, CanExit;
    assert BlockSolved(f, ins, outs, b);
    forall s | s in f.g.succs[b]
      ensures Has(Held(outs, s), a, id) && CanExit(f.g, s)
    {
      assert WayThrough(f, s, a, id, d - 1);
      assert BlockSolved(f, ins, outs, s);
      OverwrittenIsHeld(f, ins, outs, s, 0, a, id, d - 1);
      assert f.blocks[s][0..] == f.blocks[s];
    }
    var s := f.g.succs[b][0];
    assert Edge(f.g, b, s);
    CanExitStep(f.g, b, s);
  }

  /** What the analysis holds at a point is exactly what every way forward overwrites. */
  lemma HeldExact(f: Func, ins: map<nat, StoreMap>, outs: map<nat, StoreMap>, b: nat, k: nat, a: nat, id: nat)
    requires f.Valid() && Solution(f, ins, outs) && Justified(f, ins) && b < |f.blocks| && k <= |f.blocks[b]|
    ensures Has(Before(f.alone, f.blocks[b][k..], Held(ins, b)), a, id) <==> HasWay(f, b, k, a, id)
  {
    hide Before, Solution, Overwritten;
    if d: nat :| Overwritten(f, b, k, a, id, d) {
      OverwrittenIsHeld(f, ins, outs, b, k, a, id, d);
    }
    if Has(Before(f.alone, f.blocks[b][k..], Held(ins, b)), a, id) {
      if Has(Held(ins, b), a, id) {
        assert HasWay(f, b, |f.blocks[b]|, a, id);
        var d: nat :| Overwritten(f, b, |f.blocks[b]|, a, id, d);
        BeforeWays(f, b, k, Held(ins, b), a, id, d);
      } else {
        BeforeWays(f, b, k, Held(ins, b), a, id, 0);
      }
    }
  }

  /** Solves the equations by a worklist that starts at the exits. */
  method Solve(f: Func) returns (storesIn: map<nat, StoreMap>, storesOut: map<nat, StoreMap>)
    requires f.Valid()
    ensures Solution(f, storesIn, storesOut) && Justified(f, storesIn)
  {
    hide Working, Missing, Solution, HasWay;
    storesIn, storesOut := map[], map[];
    var q: seq<nat> := [];
    for b := 0 to |f.blocks|
      invariant forall c: nat :: c in q <==> c < b && f.g.succs[c] == []
    {
      if f.g.succs[b] == [] {
        q := q + [b];
      }
    }
    StartWorking(f, q);
    while q != []
      invariant Working(f, storesIn, storesOut, q) && Justified(f, storesIn)
      decreases Missing(f, storesIn), |q|
    {
      var b := q[0];
      Queued(f, storesIn, storesOut, q);
      ghost var outs0, q0 := storesOut, q;
      q := q[1..];
      var changed := false;
      var blockStoresIn;
      blockStoresIn, storesOut := MeetSuccessors(f, storesOut, b);
      ghost var ins0, outs1 := storesIn, storesOut;
      if b !in storesIn || storesIn[b] != blockStoresIn {
        storesIn := storesIn[b := blockStoresIn];
        changed := true;
      }
      var blockStoresOut := TransferBlock(f, b, blockStoresIn);
      if b !in storesOut || storesOut[b] != blockStoresOut {
        storesOut := storesOut[b := blockStoresOut];
        changed := true;
      }
      if changed {
        OnlyInsChange(f, ins0, outs0, outs1, q0, blockStoresIn, blockStoresOut);
        Changed(f, ins0, outs0, outs1, q0, blockStoresIn);
        Progress(f, ins0, outs0, q0);
        MeetJustified(f, ins0, outs0, q0, b);
        q := q + Preds(f.g, b);
      } else {
        Unchanged(f, ins0, outs0, outs1, q0);
      }
    }
    AllProcessed(f, storesIn, storesOut);
  }

  lemma StartWorking(f: Func, q: seq<nat>)
    requires f.Valid() && forall c: nat :: c in q <==> c < |f.blocks| && f.g.succs[c] == []
    ensures Working(f, map[], map[], q)
  {
    forall c: nat | c in q
      ensures CanExit(f.g, c)
    {
      assert Path(f.g, [c]);
    }
  }

  lemma Queued(f: Func, ins: map<nat, StoreMap>, outs: map<nat, StoreMap>, q: seq<nat>)
    requires f.Valid() && q != [] && Working(f, ins, outs, q)
    ensures q[0] < |f.blocks|
  {
    assert BlockWorking(f, ins, outs, q, q[0]);
  }

  /** The outgoing map of a block changes only together with its incoming map. */
  lemma OnlyInsChange(f: Func, ins: map<nat, StoreMap>, outs: map<nat, StoreMap>, outs': map<nat, StoreMap>,
      q: seq<nat>, m: StoreMap, out: StoreMap)
    requires f.Valid() && q != [] && Working(f, ins, outs, q) && q[0] < |f.blocks|
    requires forall c :: Held(outs', c) == Held(outs, c)
    requires forall c :: c in outs ==> c in outs'
    requires out == Before(f.alone, f.blocks[q[0]], m)
    ensures q[0] in ins && ins[q[0]] == m ==> q[0] in outs' && outs'[q[0]] == out
    ensures outs'[q[0] := out] == if q[0] !in outs' || outs'[q[0]] != out then outs'[q[0] := out] else outs'
    ensures ins[q[0] := m] == if q[0] !in ins || ins[q[0]] != m then ins[q[0] := m] else ins
  {
    assert BlockWorking(f, ins, outs, q, q[0]);
    assert Held(outs', q[0]) == Held(outs, q[0]);
  }
}
