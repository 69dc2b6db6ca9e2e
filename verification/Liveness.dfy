/** The liveness worklist that PHI placement starts with (core/parser_phi.cpp). */
module Liveness {
  import opened Cfg
  import opened Options
  import opened Ssa

  /** Some instruction from k on reads v before v is written. */
  ghost predicate Exposed(insts: seq<Inst>, k: nat, v: nat) {
    exists j :: k <= j < |insts| && ReadFrom(insts, k, j, v)
  }

  ghost predicate ReadFrom(insts: seq<Inst>, k: nat, j: nat, v: nat)
    requires j < |insts|
  {
    VReg(v) in insts[j].args && forall m :: k <= m < j ==> v !in insts[m].rets
  }

  /** No instruction from k on writes v. */
  ghost predicate Passes(insts: seq<Inst>, k: nat, v: nat) {
    forall j :: k <= j < |insts| ==> v !in insts[j].rets
  }

  /** Along q, entered before instruction k of its first block, v is read before it is written. */
  ghost predicate LivePath(f: Func, q: seq<nat>, k: nat, v: nat)
    requires f.Valid()
  {
    && Path(f.g, q)
    && Exposed(f.blocks[q[|q| - 1]].insts, if |q| == 1 then k else 0, v)
    && (|q| > 1 ==> Passes(f.blocks[q[0]].insts, k, v))
    && (forall i :: 0 < i < |q| - 1 ==> Passes(f.blocks[q[i]].insts, 0, v))
  }

  ghost predicate LiveAt(f: Func, b: nat, k: nat, v: nat)
    requires f.Valid()
  {
    exists q :: LivePath(f, q, k, v) && q[0] == b
  }

  ghost predicate LiveIn(f: Func, b: nat, v: nat)
    requires f.Valid()
  {
    LiveAt(f, b, 0, v)
  }

  ghost predicate LiveOut(f: Func, b: nat, v: nat)
    requires f.Valid()
  {
    exists s :: Edge(f.g, b, s) && LiveIn(f, s, v)
  }

  lemma LiveHere(f: Func, b: nat, k: nat, v: nat)
    requires f.Valid() && b < |f.blocks| && Exposed(f.blocks[b].insts, k, v)
    ensures LiveAt(f, b, k, v)
  {
    assert LivePath(f, [b], k, v);
  }

  lemma LiveThrough(f: Func, b: nat, k: nat, v: nat)
    requires f.Valid() && b < |f.blocks| && Passes(f.blocks[b].insts, k, v) && LiveOut(f, b, v)
    ensures LiveAt(f, b, k, v)
  {
    var s :| Edge(f.g, b, s) && LiveIn(f, s, v);
    var q :| LivePath(f, q, 0, v) && q[0] == s;
    ConcatPath(f.g, [b], q);
    assert LivePath(f, [b] + q, k, v);
  }

  lemma LiveUnfold(f: Func, b: nat, k: nat, v: nat)
    requires f.Valid() && LiveAt(f, b, k, v)
    ensures b < |f.blocks|
    ensures Exposed(f.blocks[b].insts, k, v) || (Passes(f.blocks[b].insts, k, v) && LiveOut(f, b, v))
  {
    var q :| LivePath(f, q, k, v) && q[0] == b;
    if |q| > 1 {
      assert Edge(f.g, q[0], q[1]);
      assert LivePath(f, q[1..], 0, v);
      assert LiveIn(f, q[1], v);
    }
  }

  // ---------------------------------------------------------------- kill and gen

  function Regs(args: seq<Operand>): (r: set<nat>)
    ensures forall v :: v in r <==> VReg(v) in args
  {
    set a | a in args && a.VReg? :: a.v
  }

  ghost predicate IsKillGen(f: Func, kill: seq<set<nat>>, gen: seq<set<nat>>)
    requires f.Valid()
  {
    && |kill| == |gen| == |f.blocks|
    && (forall b, v: nat :: 0 <= b < |kill| ==> (v in kill[b] <==> !Passes(f.blocks[b].insts, 0, v)))
    && (forall b, v: nat :: 0 <= b < |gen| ==> (v in gen[b] <==> Exposed(f.blocks[b].insts, 0, v)))
  }

  /** For every block the registers it writes and those it reads before writing them. */
  method KillGen(f: Func) returns (kill: seq<set<nat>>, gen: seq<set<nat>>)
    requires f.Valid()
    ensures IsKillGen(f, kill, gen)
  {
    kill, gen := [], [];
    for b := 0 to |f.blocks|
      invariant |kill| == |gen| == b
      invariant forall c, v: nat :: 0 <= c < b ==> (v in kill[c] <==> !Passes(f.blocks[c].insts, 0, v))
      invariant forall c, v: nat :: 0 <= c < b ==> (v in gen[c] <==> Exposed(f.blocks[c].insts, 0, v))
    {
      var kb, gb := KillGenBlock(f.blocks[b].insts);
      kill, gen := kill + [kb], gen + [gb];
    }
  }

  method KillGenBlock(insts: seq<Inst>) returns (kill: set<nat>, gen: set<nat>)
    ensures forall v: nat :: v in kill <==> !Passes(insts, 0, v)
    ensures forall v: nat :: v in gen <==> Exposed(insts, 0, v)
  {
    kill, gen := {}, {};
    var k: nat := |insts|;
    while k > 0
      invariant k <= |insts|
      invariant forall v: nat :: v in kill <==> !Passes(insts, k, v)
      invariant forall v: nat :: v in gen <==> Exposed(insts, k, v)
    {
      k := k - 1;
      var inst := insts[k];
      var written := set v | v in inst.rets;
      forall v: nat
        ensures Passes(insts, k, v) <==> v !in written && Passes(insts, k + 1, v)
        ensures Exposed(insts, k, v) <==> v in Regs(inst.args) || (v !in written && Exposed(insts, k + 1, v))
      {
        ExposedStep(insts, k, v);
      }
      kill := kill + written;
      gen := gen - written + Regs(inst.args);
    }
  }

  lemma ExposedStep(insts: seq<Inst>, k: nat, v: nat)
    requires k < |insts|
    ensures Exposed(insts, k, v) <==> VReg(v) in insts[k].args || (v !in insts[k].rets && Exposed(insts, k + 1, v))
    ensures Passes(insts, k, v) <==> v !in insts[k].rets && Passes(insts, k + 1, v)
  {
    if VReg(v) in insts[k].args {
      assert ReadFrom(insts, k, k, v);
    }
    if v !in insts[k].rets && Exposed(insts, k + 1, v) {
      var j :| k + 1 <= j < |insts| && ReadFrom(insts, k + 1, j, v);
      assert ReadFrom(insts, k, j, v);
    }
    if Exposed(insts, k, v) {
      var j :| k <= j < |insts| && ReadFrom(insts, k, j, v);
      if j > k {
        assert ReadFrom(insts, k + 1, j, v);
      }
    }
  }

  // ---------------------------------------------------------------- the worklist

  /** One application of the dataflow equation of block b. */
  ghost predicate InFlow(g: Graph, kill: set<nat>, gen: set<nat>, live: seq<set<nat>>, b: nat, v: nat)
    requires g.Valid() && b < |g.succs| && |live| == |g.succs|
  {
    v in gen || (v !in kill && exists i :: 0 <= i < |g.succs[b]| && v in live[g.succs[b][i]])
  }

  ghost predicate Consistent(g: Graph, kill: set<nat>, gen: set<nat>, live: seq<set<nat>>, b: nat)
    requires g.Valid() && b < |g.succs| && |live| == |g.succs|
  {
    forall v: nat :: v in live[b] <==> InFlow(g, kill, gen, live, b, v)
  }

  ghost function Missing(live: seq<set<nat>>, universe: set<nat>): set<(nat, nat)> {
    set b, v | 0 <= b < |live| && v in universe && v !in live[b] :: (b, v)
  }

  ghost function Union(sets: seq<set<nat>>): (u: set<nat>)
    ensures forall b :: 0 <= b < |sets| ==> sets[b] <= u
  {
    if sets == [] then {} else Union(sets[..|sets| - 1]) + sets[|sets| - 1]
  }

  /** The registers live into b, given those live into its successors. */
  method Flow(g: Graph, kill: set<nat>, gen: set<nat>, live: seq<set<nat>>, b: nat) returns (in_: set<nat>)
    requires g.Valid() && b < |g.succs| && |live| == |g.succs|
    ensures forall v: nat :: v in in_ <==> InFlow(g, kill, gen, live, b, v)
  {
    var out: set<nat> := {};
    for i := 0 to |g.succs[b]|
      invariant forall v :: v in out <==> exists j :: 0 <= j < i && v in live[g.succs[b][j]]
    {
      out := out + live[g.succs[b][i]];
    }
    in_ := gen + (out - kill);
  }

  /** Everything in live really is live. */
  ghost predicate Sound(f: Func, live: seq<set<nat>>)
    requires f.Valid()
  {
    forall b: nat, v: nat :: b < |live| && v in live[b] ==> LiveIn(f, b, v)
  }

  /** Everything in live follows from one application of the equations to live. */
  ghost predicate Supported(f: Func, kill: seq<set<nat>>, gen: seq<set<nat>>, live: seq<set<nat>>)
    requires f.Valid() && |f.blocks| == |kill| == |gen| == |live|
  {
    forall b: nat, v: nat :: b < |live| && v in live[b] ==> InFlow(f.g, kill[b], gen[b], live, b, v)
  }

  /** Reachable blocks that are not queued satisfy their equation. */
  ghost predicate Settled(f: Func, kill: seq<set<nat>>, gen: seq<set<nat>>, live: seq<set<nat>>, q: seq<nat>)
    requires f.Valid() && |f.blocks| == |kill| == |gen| == |live|
  {
    forall b: nat :: b < |live| && Reachable(f.g, b) && b !in q ==> Consistent(f.g, kill[b], gen[b], live, b)
  }

  ghost predicate QueueIn(q: seq<nat>, inQ: set<nat>, n: nat) {
    && (forall b :: b in inQ ==> b in q)
    && (forall i :: 0 <= i < |q| ==> q[i] < n)
  }

  lemma Popped(q: seq<nat>, inQ: set<nat>, n: nat)
    requires q != [] && QueueIn(q, inQ, n)
    ensures q[0] < n && QueueIn(q[1..], inQ - {q[0]}, n)
  {
    assert q == [q[0]] + q[1..];
  }

  lemma PredsInRange(g: Graph, b: nat)
    ensures forall i :: 0 <= i < |Preds(g, b)| ==> Preds(g, b)[i] < |g.succs|
  {
    forall i | 0 <= i < |Preds(g, b)|
      ensures Preds(g, b)[i] < |g.succs|
    {
      assert Edge(g, Preds(g, b)[i], b);
    }
  }

  /** Queues every predecessor that is not marked as queued already. */
  method Enqueue(preds: seq<nat>, q: seq<nat>, inQ: set<nat>, ghost n: nat) returns (q': seq<nat>, inQ': set<nat>)
    requires QueueIn(q, inQ, n) && forall i :: 0 <= i < |preds| ==> preds[i] < n
    ensures QueueIn(q', inQ', n)
    ensures forall b :: b in q' <==> b in q || b in preds
  {
    q', inQ' := q, inQ;
    for i := 0 to |preds|
      invariant QueueIn(q', inQ', n)
      invariant forall b :: b in q' <==> b in q || b in preds[..i]
    {
      if preds[i] !in inQ' {
        inQ' := inQ' + {preds[i]};
        q' := q' + [preds[i]];
      }
    }
  }

  ghost predicate Inv(f: Func, kill: seq<set<nat>>, gen: seq<set<nat>>, live: seq<set<nat>>, q: seq<nat>)
    requires f.Valid()
  {
    && IsKillGen(f, kill, gen)
    && |live| == |f.blocks|
    && Sound(f, live) && Supported(f, kill, gen, live) && Settled(f, kill, gen, live, q)
    && forall b :: 0 <= b < |live| ==> live[b] <= Union(gen)
  }

  /** Liveness is exact at every reachable block and never overestimates elsewhere.
      order enumerates the reachable blocks, as the post-order traversal does. */
  method Compute(f: Func, order: seq<nat>) returns (live: seq<set<nat>>)
    requires f.Valid()
    requires forall b: nat :: b in order <==> b < |f.blocks| && Reachable(f.g, b)
    ensures |live| == |f.blocks|
    ensures forall b: nat, v: nat :: b < |live| && v in live[b] ==> LiveIn(f, b, v)
    ensures forall b: nat, v: nat :: b < |live| && Reachable(f.g, b) && LiveIn(f, b, v) ==> v in live[b]
  {
    var kill, gen := KillGen(f);
    live := seq(|f.blocks|, _ => {});
    var q: seq<nat> := order;
    var inQ: set<nat> := {};
    assert forall i :: 0 <= i < |q| ==> q[i] in order;
    while q != []
      invariant Inv(f, kill, gen, live, q) && QueueIn(q, inQ, |f.blocks|)
      decreases Missing(live, Union(gen)), |q|
    {
      var b: nat := q[0];
      Popped(q, inQ, |f.blocks|);
      var in_ := Flow(f.g, kill[b], gen[b], live, b);
      Updated(f, kill, gen, live, b, in_);
      if live[b] != in_ {
        PredsInRange(f.g, b);
        var q', inQ' := Enqueue(Preds(f.g, b), q[1..], inQ - {b}, |f.blocks|);
        StaysSettled(f, kill, gen, live, b, in_, q, q');
        Progress(live, live[b := in_], Union(gen), b);
        live, q, inQ := live[b := in_], q', inQ';
      } else {
        Unchanged(f, kill, gen, live, b, q);
        q, inQ := q[1..], inQ - {b};
      }
    }
    FixpointIsExact(f, kill, gen, live);
  }

  lemma Updated(f: Func, kill: seq<set<nat>>, gen: seq<set<nat>>, live: seq<set<nat>>, b: nat, in_: set<nat>)
    requires f.Valid() && IsKillGen(f, kill, gen) && |live| == |f.blocks|
    requires Sound(f, live) && Supported(f, kill, gen, live)
    requires forall c :: 0 <= c < |live| ==> live[c] <= Union(gen)
    requires b < |f.blocks|
    requires forall v: nat :: v in in_ <==> InFlow(f.g, kill[b], gen[b], live, b, v)
    ensures Sound(f, live[b := in_]) && Supported(f, kill, gen, live[b := in_])
    ensures live[b] <= in_ <= Union(gen)
  {
    InUniverse(f, kill, gen, live, Union(gen), b, in_);
    FlowIsSound(f, kill, gen, live, b, in_);
    FlowGrows(f, kill, gen, live, b, in_);
  }

  lemma Unchanged(f: Func, kill: seq<set<nat>>, gen: seq<set<nat>>, live: seq<set<nat>>, b: nat, q: seq<nat>)
    requires f.Valid() && b < |f.blocks| == |live| == |kill| == |gen|
    requires q != [] && q[0] == b && Settled(f, kill, gen, live, q)
    requires forall v: nat :: v in live[b] <==> InFlow(f.g, kill[b], gen[b], live, b, v)
    ensures Settled(f, kill, gen, live, q[1..])
  {
    assert q == [b] + q[1..];
  }

  lemma InUniverse(f: Func, kill: seq<set<nat>>, gen: seq<set<nat>>, live: seq<set<nat>>, universe: set<nat>, b: nat,
                   in_: set<nat>)
    requires f.Valid() && b < |f.blocks| == |kill| == |gen| == |live|
    requires universe == Union(gen) && forall c :: 0 <= c < |live| ==> live[c] <= universe
    requires forall v: nat :: v in in_ <==> InFlow(f.g, kill[b], gen[b], live, b, v)
    requires Supported(f, kill, gen, live)
    ensures live[b] <= in_ <= universe
  {
  }

  lemma Progress(live0: seq<set<nat>>, live: seq<set<nat>>, universe: set<nat>, b: nat)
    requires b < |live0| == |live| && live0[b] < live[b] <= universe && live == live0[b := live[b]]
    ensures Missing(live, universe) < Missing(live0, universe)
  {
    var v :| v in live[b] && v !in live0[b];
    assert (b, v) in Missing(live0, universe) && (b, v) !in Missing(live, universe);
  }

  lemma FlowIsSound(f: Func, kill: seq<set<nat>>, gen: seq<set<nat>>, live: seq<set<nat>>, b: nat, in_: set<nat>)
    requires f.Valid() && IsKillGen(f, kill, gen) && b < |f.blocks| == |live|
    requires Sound(f, live)
    requires forall v: nat :: v in in_ <==> InFlow(f.g, kill[b], gen[b], live, b, v)
    ensures Sound(f, live[b := in_])
  {
    forall v: nat | v in in_
      ensures LiveIn(f, b, v)
    {
      if v in gen[b] {
        LiveHere(f, b, 0, v);
      } else {
        var i :| 0 <= i < |f.g.succs[b]| && v in live[f.g.succs[b][i]];
        assert Edge(f.g, b, f.g.succs[b][i]);
        LiveThrough(f, b, 0, v);
      }
    }
  }

  lemma FlowGrows(f: Func, kill: seq<set<nat>>, gen: seq<set<nat>>, live: seq<set<nat>>, b: nat, in_: set<nat>)
    requires f.Valid() && b < |f.blocks| == |live| == |kill| == |gen|
    requires Supported(f, kill, gen, live) && live[b] <= in_
    requires forall v: nat :: v in in_ <==> InFlow(f.g, kill[b], gen[b], live, b, v)
    ensures Supported(f, kill, gen, live[b := in_])
  {
    var live' := live[b := in_];
    forall c: nat, v: nat | c < |live'| && v in live'[c]
      ensures InFlow(f.g, kill[c], gen[c], live', c, v)
    {
      assert InFlow(f.g, kill[c], gen[c], live, c, v);
    }
  }

  lemma StaysSettled(f: Func, kill: seq<set<nat>>, gen: seq<set<nat>>, live: seq<set<nat>>, b: nat, in_: set<nat>,
                     q: seq<nat>, q': seq<nat>)
    requires f.Valid() && b < |f.blocks| == |live| == |kill| == |gen|
    requires q != [] && q[0] == b && Settled(f, kill, gen, live, q)
    requires forall v: nat :: v in in_ <==> InFlow(f.g, kill[b], gen[b], live, b, v)
    requires forall c :: c in q[1..] ==> c in q'
    requires forall c: nat :: c in Preds(f.g, b) ==> c in q'
    ensures Settled(f, kill, gen, live[b := in_], q')
  {
    var live' := live[b := in_];
    forall c: nat | c < |live| && Reachable(f.g, c) && c !in q'
      ensures Consistent(f.g, kill[c], gen[c], live', c)
    {
      assert c !in Preds(f.g, b);
      assert !Edge(f.g, c, b);
      assert forall i :: 0 <= i < |f.g.succs[c]| ==> live'[f.g.succs[c][i]] == live[f.g.succs[c][i]];
      assert forall v: nat :: InFlow(f.g, kill[c], gen[c], live', c, v) <==> InFlow(f.g, kill[c], gen[c], live, c, v);
      if c != b {
        assert q == [b] + q[1..];
        assert c !in q;
      }
    }
  }

  lemma {:induction false} FixpointIsComplete(f: Func, kill: seq<set<nat>>, gen: seq<set<nat>>, live: seq<set<nat>>,
                                              p: seq<nat>, v: nat)
    requires f.Valid() && IsKillGen(f, kill, gen) && |f.blocks| == |live|
    requires Settled(f, kill, gen, live, [])
    requires LivePath(f, p, 0, v) && Reachable(f.g, p[0])
    ensures v in live[p[0]]
    decreases |p|
  {
    var b := p[0];
    assert Consistent(f.g, kill[b], gen[b], live, b);
    if |p| > 1 {
      assert Edge(f.g, b, p[1]);
      EdgeReachable(f.g, b, p[1]);
      FixpointIsComplete(f, kill, gen, live, p[1..], v);
      var i :| 0 <= i < |f.g.succs[b]| && f.g.succs[b][i] == p[1];
      assert InFlow(f.g, kill[b], gen[b], live, b, v);
    }
  }

  lemma FixpointIsExact(f: Func, kill: seq<set<nat>>, gen: seq<set<nat>>, live: seq<set<nat>>)
    requires f.Valid() && IsKillGen(f, kill, gen) && |f.blocks| == |live|
    requires Settled(f, kill, gen, live, [])
    ensures forall b: nat, v: nat :: b < |live| && Reachable(f.g, b) && LiveIn(f, b, v) ==> v in live[b]
  {
    forall b: nat, v: nat | b < |live| && Reachable(f.g, b) && LiveIn(f, b, v)
      ensures v in live[b]
    {
      var p :| LivePath(f, p, 0, v) && p[0] == b;
      FixpointIsComplete(f, kill, gen, live, p, v);
    }
  }
}
