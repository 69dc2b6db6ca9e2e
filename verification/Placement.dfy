/** Pruned PHI placement along dominance frontiers (core/parser_phi.cpp). */
module Placement {
  import opened Cfg
  import opened Options
  import opened Ssa
  import opened Liveness

  ghost predicate Writes(f: Func, b: nat, v: nat)
    requires b < |f.blocks|
  {
    !Passes(f.blocks[b].insts, 0, v)
  }

  ghost predicate DefOrPhi(f: Func, phis: seq<set<nat>>, b: nat, v: nat)
    requires b < |f.blocks| == |phis|
  {
    Writes(f, b, v) || v in phis[b]
  }

  /** Every frontier block of a definition of v, or of a PHI for v, has a PHI if v is live there. */
  ghost predicate ClosedFor(f: Func, t: DomTree, live: seq<set<nat>>, phis: seq<set<nat>>, v: nat)
    requires f.Valid() && TreeOf(f.g, t) && |live| == |phis| == |f.blocks|
  {
    forall a: nat, b: nat ::
      a < |phis| && b < |phis| && Reachable(f.g, a) && DefOrPhi(f, phis, a, v) && b in t.front[a] && v in live[b]
      ==> v in phis[b]
  }

  ghost predicate Closed(f: Func, t: DomTree, live: seq<set<nat>>, phis: seq<set<nat>>)
    requires f.Valid() && TreeOf(f.g, t) && |live| == |phis| == |f.blocks|
  {
    forall v: nat :: ClosedFor(f, t, live, phis, v)
  }

  /** Blocks that write each register, in block order. */
  ghost predicate IsSites(f: Func, sites: map<nat, seq<nat>>) {
    && (forall v: nat, b: nat :: v in sites && b in sites[v] ==> b < |f.blocks| && Writes(f, b, v))
    && (forall v: nat, b: nat :: b < |f.blocks| && Writes(f, b, v) ==> v in sites && b in sites[v])
  }

  function Written(insts: seq<Inst>): (r: set<nat>)
    ensures forall v :: v in r <==> !Passes(insts, 0, v)
  {
    set k, v | 0 <= k < |insts| && v in insts[k].rets :: v
  }

  method Sites(f: Func) returns (sites: map<nat, seq<nat>>)
    ensures IsSites(f, sites)
  {
    sites := map[];
    for b := 0 to |f.blocks|
      invariant forall v: nat, c: nat :: v in sites && c in sites[v] ==> c < b && Writes(f, c, v)
      invariant forall v: nat, c: nat :: c < b && Writes(f, c, v) ==> v in sites && c in sites[v]
    {
      var local := Written(f.blocks[b].insts);
      sites := map v | v in sites.Keys + local ::
        (if v in sites then sites[v] else []) + (if v in local then [b] else []);
    }
  }

  // ---------------------------------------------------------------- one register

  /** Blocks that define v and are not queued have their live frontier covered. */
  ghost predicate Covered(f: Func, t: DomTree, live: seq<set<nat>>, phis: seq<set<nat>>, v: nat, q: seq<nat>)
    requires f.Valid() && TreeOf(f.g, t) && |live| == |phis| == |f.blocks|
  {
    forall a: nat :: a < |phis| && a !in q && Reachable(f.g, a) && DefOrPhi(f, phis, a, v) ==>
      FrontCovered(t, live, phis, v, a, |t.front[a]|)
  }

  ghost predicate FrontCovered(t: DomTree, live: seq<set<nat>>, phis: seq<set<nat>>, v: nat, a: nat, n: nat)
    requires |live| == |phis| && a < |t.front| && n <= |t.front[a]|
  {
    forall i :: 0 <= i < n && t.front[a][i] < |phis| && v in live[t.front[a][i]] ==> v in phis[t.front[a][i]]
  }

  /** Every PHI for v is forced: it belongs to every closed placement. */
  ghost predicate Forced(f: Func, t: DomTree, live: seq<set<nat>>, phis: seq<set<nat>>, v: nat)
    requires f.Valid() && TreeOf(f.g, t) && |live| == |phis| == |f.blocks|
  {
    forall s: seq<set<nat>>, b: nat :: |s| == |phis| && ClosedFor(f, t, live, s, v) && b < |phis| && v in phis[b] ==>
      v in s[b]
  }

  ghost predicate OnlyFor(phis0: seq<set<nat>>, phis: seq<set<nat>>, v: nat) {
    && |phis0| == |phis|
    && (forall b: nat, w: nat :: b < |phis| && w != v ==> (w in phis[b] <==> w in phis0[b]))
    && (forall b: nat :: b < |phis| && v in phis0[b] ==> v in phis[b])
  }

  ghost predicate InRange(q: seq<nat>, n: nat) {
    forall i :: 0 <= i < |q| ==> q[i] < n
  }

  ghost function Open(phis: seq<set<nat>>, v: nat): set<nat> {
    set b | 0 <= b < |phis| && v !in phis[b]
  }

  /** The invariant of the worklist for v. */
  ghost predicate VarInv(f: Func, t: DomTree, live: seq<set<nat>>, phis: seq<set<nat>>, v: nat, q: seq<nat>)
    requires f.Valid() && TreeOf(f.g, t) && |live| == |f.blocks|
  {
    && |phis| == |f.blocks|
    && InRange(q, |f.blocks|)
    && (forall i :: 0 <= i < |q| ==> DefOrPhi(f, phis, q[i], v))
    && Covered(f, t, live, phis, v, q)
    && Forced(f, t, live, phis, v)
    && (forall b: nat :: b < |phis| && v in phis[b] ==> v in live[b])
  }

  lemma FrontInRange(g: Graph, t: DomTree, a: nat)
    requires g.Valid() && TreeOf(g, t) && a < |g.succs| && Reachable(g, a)
    ensures InRange(t.front[a], |g.succs|)
  {
    forall i | 0 <= i < |t.front[a]|
      ensures t.front[a][i] < |g.succs|
    {
      var b := t.front[a][i];
      assert b in t.front[a];
      var p: nat :| Reachable(g, p) && Edge(g, p, b) && Dom(g, a, p);
      var j :| 0 <= j < |g.succs[p]| && g.succs[p][j] == b;
    }
  }

  method PlaceVar(f: Func, t: DomTree, live: seq<set<nat>>, phis0: seq<set<nat>>, v: nat, sites: seq<nat>)
    returns (phis: seq<set<nat>>)
    requires f.Valid() && TreeOf(f.g, t) && |live| == |phis0| == |f.blocks|
    requires forall b: nat :: b in sites <==> b < |f.blocks| && Writes(f, b, v)
    requires forall b: nat :: b < |phis0| ==> v !in phis0[b]
    ensures OnlyFor(phis0, phis, v)
    ensures VarInv(f, t, live, phis, v, [])
  {
    phis := phis0;
    var q: seq<nat> := sites;
    assert forall i :: 0 <= i < |q| ==> q[i] in sites;
    while q != []
      invariant OnlyFor(phis0, phis, v) && VarInv(f, t, live, phis, v, q)
      decreases Open(phis, v), |q|
    {
      var block: nat := q[0];
      assert q == [block] + q[1..];
      if block == 0 || block in t.idom {
        ReachableNode(f.g, t, block);
        phis, q := VisitFront(f, t, live, phis0, phis, v, block, q[1..]);
      } else {
        ReachableNode(f.g, t, block);
        q := q[1..];
      }
    }
  }

  lemma ReachableNode(g: Graph, t: DomTree, b: nat)
    requires g.Valid() && TreeOf(g, t) && b < |g.succs|
    ensures (b == 0 || b in t.idom) <==> Reachable(g, b)
  {
    EntryReachable(g);
  }

  /** Covers the frontier of one definition, queueing the blocks that get a PHI. */
  method VisitFront(f: Func, t: DomTree, live: seq<set<nat>>, ghost phis0: seq<set<nat>>, phisIn: seq<set<nat>>, v: nat,
                    block: nat, qIn: seq<nat>)
    returns (phis: seq<set<nat>>, q: seq<nat>)
    requires f.Valid() && TreeOf(f.g, t) && |live| == |f.blocks| && block < |f.blocks| && Reachable(f.g, block)
    requires OnlyFor(phis0, phisIn, v) && VarInv(f, t, live, phisIn, v, [block] + qIn)
    ensures OnlyFor(phis0, phis, v) && VarInv(f, t, live, phis, v, q)
    ensures Open(phis, v) < Open(phisIn, v) || (phis == phisIn && q == qIn)
  {
    phis, q := phisIn, qIn;
    FrontInRange(f.g, t, block);
    for i := 0 to |t.front[block]|
      invariant OnlyFor(phis0, phis, v) && VarInv(f, t, live, phis, v, [block] + q)
      invariant FrontCovered(t, live, phis, v, block, i)
      invariant Open(phis, v) < Open(phisIn, v) || (phis == phisIn && q == qIn)
    {
      var front: nat := t.front[block][i];
      if v !in phis[front] && v in live[front] {
        Extend(f, t, live, phis, v, block, q, front);
        Placed(t, live, phis0, phis, v, block, i);
        phis := phis[front := phis[front] + {v}];
        q := q + [front];
      } else {
        Skipped(t, live, phis, v, block, i);
      }
    }
    Finished(f, t, live, phis, v, block, q);
  }

  lemma Placed(t: DomTree, live: seq<set<nat>>, phis0: seq<set<nat>>, phis: seq<set<nat>>, v: nat, block: nat, i: nat)
    requires |live| == |phis| && block < |t.front| && i < |t.front[block]| && t.front[block][i] < |phis|
    requires OnlyFor(phis0, phis, v) && FrontCovered(t, live, phis, v, block, i) && v !in phis[t.front[block][i]]
    ensures var front := t.front[block][i]; var phis' := phis[front := phis[front] + {v}];
      OnlyFor(phis0, phis', v) && FrontCovered(t, live, phis', v, block, i + 1) && Open(phis', v) < Open(phis, v)
  {
    assert t.front[block][i] in Open(phis, v);
  }

  lemma Skipped(t: DomTree, live: seq<set<nat>>, phis: seq<set<nat>>, v: nat, block: nat, i: nat)
    requires |live| == |phis| && block < |t.front| && i < |t.front[block]| && t.front[block][i] < |phis|
    requires FrontCovered(t, live, phis, v, block, i)
    requires v in phis[t.front[block][i]] || v !in live[t.front[block][i]]
    ensures FrontCovered(t, live, phis, v, block, i + 1)
  {
  }

  lemma Finished(f: Func, t: DomTree, live: seq<set<nat>>, phis: seq<set<nat>>, v: nat, block: nat, q: seq<nat>)
    requires f.Valid() && TreeOf(f.g, t) && |live| == |f.blocks| == |phis| && block < |f.blocks|
    requires VarInv(f, t, live, phis, v, [block] + q)
    requires FrontCovered(t, live, phis, v, block, |t.front[block]|)
    ensures VarInv(f, t, live, phis, v, q)
  {
    assert forall i :: 0 <= i < |q| ==> q[i] == ([block] + q)[i + 1];
  }

  lemma Extend(f: Func, t: DomTree, live: seq<set<nat>>, phis: seq<set<nat>>, v: nat, block: nat, q: seq<nat>,
               front: nat)
    requires f.Valid() && TreeOf(f.g, t) && |live| == |f.blocks| && block < |f.blocks| && Reachable(f.g, block)
    requires VarInv(f, t, live, phis, v, [block] + q)
    requires front < |phis| && front in t.front[block] && v in live[front]
    ensures VarInv(f, t, live, phis[front := phis[front] + {v}], v, [block] + (q + [front]))
  {
    var phis' := phis[front := phis[front] + {v}];
    var q1, q2 := [block] + q, [block] + (q + [front]);
    assert q2 == q1 + [front];
    assert DefOrPhi(f, phis, q1[0], v);
    ExtendForced(f, t, live, phis, v, block, front);
    assert Covered(f, t, live, phis', v, q2) by {
      ExtendCovered(f, t, live, phis, v, q1, front);
    }
    forall i | 0 <= i < |q2|
      ensures q2[i] < |phis'| && DefOrPhi(f, phis', q2[i], v)
    {
      if i < |q1| {
        assert DefOrPhi(f, phis, q1[i], v);
      }
    }
  }

  lemma ExtendCovered(f: Func, t: DomTree, live: seq<set<nat>>, phis: seq<set<nat>>, v: nat, q: seq<nat>, front: nat)
    requires f.Valid() && TreeOf(f.g, t) && |live| == |f.blocks| == |phis|
    requires front < |phis| && Covered(f, t, live, phis, v, q)
    ensures Covered(f, t, live, phis[front := phis[front] + {v}], v, q + [front])
  {
    var phis' := phis[front := phis[front] + {v}];
    forall a: nat | a < |phis| && a !in q + [front] && Reachable(f.g, a) && DefOrPhi(f, phis', a, v)
      ensures FrontCovered(t, live, phis', v, a, |t.front[a]|)
    {
      assert a !in q && a != front;
      assert FrontCovered(t, live, phis, v, a, |t.front[a]|);
    }
  }

  lemma ExtendForced(f: Func, t: DomTree, live: seq<set<nat>>, phis: seq<set<nat>>, v: nat, block: nat, front: nat)
    requires f.Valid() && TreeOf(f.g, t) && |live| == |f.blocks| == |phis| && block < |f.blocks|
    requires Reachable(f.g, block)
    requires Forced(f, t, live, phis, v) && DefOrPhi(f, phis, block, v)
    requires front < |phis| && front in t.front[block] && v in live[front]
    ensures Forced(f, t, live, phis[front := phis[front] + {v}], v)
  {
    var phis' := phis[front := phis[front] + {v}];
    forall s: seq<set<nat>>, b: nat | |s| == |phis| && ClosedFor(f, t, live, s, v) && b < |phis| && v in phis'[b]
      ensures v in s[b]
    {
      assert v in phis[block] ==> v in s[block];
      assert DefOrPhi(f, s, block, v);
    }
  }

  // ---------------------------------------------------------------- all registers

  /** The registers in rest have no PHIs yet; every other register is finished. */
  ghost predicate Pending(f: Func, t: DomTree, live: seq<set<nat>>, phis: seq<set<nat>>, rest: set<nat>)
    requires f.Valid() && TreeOf(f.g, t) && |live| == |f.blocks| == |phis|
  {
    && (forall v: nat, b: nat :: v in rest && b < |phis| ==> v !in phis[b])
    && (forall v: nat :: v !in rest ==> VarInv(f, t, live, phis, v, []))
  }

  /** The placement is closed under live dominance frontiers, is pruned, and is the least
      such placement. */
  method Place(f: Func, t: DomTree, live: seq<set<nat>>) returns (phis: seq<set<nat>>)
    requires f.Valid() && TreeOf(f.g, t) && |live| == |f.blocks|
    ensures |phis| == |f.blocks|
    ensures Closed(f, t, live, phis)
    ensures forall b: nat, v: nat :: b < |phis| && v in phis[b] ==> v in live[b]
    ensures forall s: seq<set<nat>>, b: nat :: |s| == |phis| && Closed(f, t, live, s) && b < |phis| ==> phis[b] <= s[b]
  {
    var sites := Sites(f);
    phis := seq(|f.blocks|, _ => {});
    var vs := sites.Keys;
    NothingToDo(f, t, live, phis, sites);
    while vs != {}
      invariant |phis| == |f.blocks| && vs <= sites.Keys
      invariant Pending(f, t, live, phis, vs)
      decreases vs
    {
      var v: nat :| v in vs;
      ghost var phis0, vs0 := phis, vs;
      phis := PlaceVar(f, t, live, phis, v, sites[v]);
      vs := vs - {v};
      OneDone(f, t, live, phis0, phis, vs0, v);
    }
    AllDone(f, t, live, phis);
  }

  lemma NothingToDo(f: Func, t: DomTree, live: seq<set<nat>>, phis: seq<set<nat>>, sites: map<nat, seq<nat>>)
    requires f.Valid() && TreeOf(f.g, t) && |live| == |f.blocks| && IsSites(f, sites)
    requires phis == seq(|f.blocks|, _ => {})
    ensures Pending(f, t, live, phis, sites.Keys)
  {
  }

  lemma OneDone(f: Func, t: DomTree, live: seq<set<nat>>, phis0: seq<set<nat>>, phis: seq<set<nat>>, rest: set<nat>,
                v: nat)
    requires f.Valid() && TreeOf(f.g, t) && |live| == |f.blocks| == |phis0|
    requires Pending(f, t, live, phis0, rest) && v in rest
    requires OnlyFor(phis0, phis, v) && VarInv(f, t, live, phis, v, [])
    ensures Pending(f, t, live, phis, rest - {v})
  {
    forall w: nat | w !in rest - {v}
      ensures VarInv(f, t, live, phis, w, [])
    {
      if w != v {
        assert VarInv(f, t, live, phis0, w, []);
        forall a: nat | a < |phis| && Reachable(f.g, a) && DefOrPhi(f, phis, a, w)
          ensures FrontCovered(t, live, phis, w, a, |t.front[a]|)
        {
          assert DefOrPhi(f, phis0, a, w);
          assert FrontCovered(t, live, phis0, w, a, |t.front[a]|);
        }
      }
    }
  }

  lemma AllDone(f: Func, t: DomTree, live: seq<set<nat>>, phis: seq<set<nat>>)
    requires f.Valid() && TreeOf(f.g, t) && |live| == |f.blocks| == |phis|
    requires Pending(f, t, live, phis, {})
    ensures Closed(f, t, live, phis)
    ensures forall b: nat, v: nat :: b < |phis| && v in phis[b] ==> v in live[b]
    ensures forall s: seq<set<nat>>, b: nat :: |s| == |phis| && Closed(f, t, live, s) && b < |phis| ==> phis[b] <= s[b]
  {
    forall v: nat
      ensures VarInv(f, t, live, phis, v, []) && ClosedFor(f, t, live, phis, v)
    {
      assert VarInv(f, t, live, phis, v, []);
      forall a: nat, b: nat | a < |phis| && b < |phis| && Reachable(f.g, a) && DefOrPhi(f, phis, a, v) &&
        b in t.front[a] && v in live[b]
        ensures v in phis[b]
      {
        assert FrontCovered(t, live, phis, v, a, |t.front[a]|);
      }
    }
    forall s: seq<set<nat>>, b: nat, v: nat | |s| == |phis| && Closed(f, t, live, s) && b < |phis| && v in phis[b]
      ensures v in s[b]
    {
      assert VarInv(f, t, live, phis, v, []);
      assert ClosedFor(f, t, live, s, v);
    }
  }

  // ---------------------------------------------------------------- pruning is enough

  /** v is live at every block of q after index k when nothing there writes it. */
  lemma LiveAlong(f: Func, q: seq<nat>, k: nat, v: nat)
    requires f.Valid() && Path(f.g, q) && k < |q| && LiveIn(f, q[|q| - 1], v)
    requires forall m :: k <= m < |q| - 1 ==> !Writes(f, q[m], v)
    ensures LiveIn(f, q[k], v)
    decreases |q| - k
  {
    if k < |q| - 1 {
      LiveAlong(f, q, k + 1, v);
      assert Edge(f.g, q[k], q[k + 1]);
      LiveThrough(f, q[k], 0, v);
    }
  }

  /** live lists at least the registers live into reachable blocks. */
  ghost predicate LiveComplete(f: Func, live: seq<set<nat>>)
    requires f.Valid()
  {
    && |live| == |f.blocks|
    && forall b: nat, v: nat :: b < |live| && Reachable(f.g, b) && LiveIn(f, b, v) ==> v in live[b]
  }

  /** If v is live into b and b has no PHI for it, no path from idom(b) to b that avoids
      idom(b) meets a definition of v or a PHI for v on the way. */
  lemma NoDefBetween(f: Func, t: DomTree, live: seq<set<nat>>, phis: seq<set<nat>>, b: nat, v: nat, q: seq<nat>, k: nat)
    requires f.Valid() && TreeOf(f.g, t) && LiveComplete(f, live) && |phis| == |f.blocks|
    requires ClosedFor(f, t, live, phis, v)
    requires b in t.idom && LiveIn(f, b, v) && v !in phis[b]
    requires Path(f.g, q) && q[0] == t.idom[b] && q[|q| - 1] == b && t.idom[b] !in q[1..]
    requires 0 < k < |q| - 1
    ensures !DefOrPhi(f, phis, q[k], v)
    decreases |q| - k
  {
    forall m | k < m < |q| - 1
      ensures !DefOrPhi(f, phis, q[m], v)
    {
      NoDefBetween(f, t, live, phis, b, v, q, m);
    }
    if DefOrPhi(f, phis, q[k], v) {
      var j := NextPhi(f, t, live, phis, b, v, q, k);
      assert false;
    }
  }

  /** The last definition of v on such a path forces a PHI for v at a later block. */
  lemma NextPhi(f: Func, t: DomTree, live: seq<set<nat>>, phis: seq<set<nat>>, b: nat, v: nat, q: seq<nat>, k: nat)
      returns (j: nat)
    requires f.Valid() && TreeOf(f.g, t) && LiveComplete(f, live) && |phis| == |f.blocks|
    requires ClosedFor(f, t, live, phis, v)
    requires b in t.idom && LiveIn(f, b, v)
    requires Path(f.g, q) && q[0] == t.idom[b] && q[|q| - 1] == b && t.idom[b] !in q[1..]
    requires 0 < k < |q| - 1 && DefOrPhi(f, phis, q[k], v)
    requires forall m :: k < m < |q| - 1 ==> !Writes(f, q[m], v)
    ensures k < j < |q| && v in phis[q[j]]
  {
    BetweenIsNotAbove(f.g, t.idom[b], b, q, k);
    PathReachable(f.g, q, k, t.idom[b], b);
    j := CrossesFrontier(f.g, q[k], q[k..]);
    j := k + j;
    PathReachable(f.g, q, j, t.idom[b], b);
    LiveAlong(f, q, j, v);
    assert q[j] in t.front[q[k]];
  }

  /** From index m on the run p to b carries v unchanged from idom(b). */
  ghost predicate QuietAfter(f: Func, t: DomTree, phis: seq<set<nat>>, p: seq<nat>, m: nat, b: nat, v: nat)
    requires f.Valid() && |phis| == |f.blocks| && b in t.idom && Path(f.g, p)
  {
    && m < |p| - 1 && p[m] == t.idom[b]
    && (forall j :: m < j < |p| - 1 ==> !DefOrPhi(f, phis, p[j], v))
    && Edge(f.g, p[m], p[m + 1]) && LiveIn(f, p[m + 1], v)
  }

  /** Nothing on a run between the last visit of idom(b) and b touches a register that is
      live at b and has no PHI there. */
  lemma QuietSinceIdom(f: Func, t: DomTree, live: seq<set<nat>>, phis: seq<set<nat>>, p: seq<nat>, b: nat, v: nat)
    requires f.Valid() && TreeOf(f.g, t) && LiveComplete(f, live) && |phis| == |f.blocks|
    requires ClosedFor(f, t, live, phis, v)
    requires RunTo(f.g, p, b) && b in t.idom && LiveIn(f, b, v) && v !in phis[b]
    ensures t.idom[b] in p && QuietAfter(f, t, phis, p, Last(p, t.idom[b]), b, v)
  {
    hide ClosedFor, LiveComplete, InFrontier, Passes;
    var m := Last(p, t.idom[b]);
    var q := p[m..];
    assert q[1..] == p[m + 1..];
    forall j | m < j < |p| - 1
      ensures !DefOrPhi(f, phis, p[j], v)
    {
      NoDefBetween(f, t, live, phis, b, v, q, j - m);
    }
    LiveAlong(f, q, 1, v);
  }

  lemma PathReachable(g: Graph, q: seq<nat>, k: nat, d: nat, b: nat)
    requires g.Valid() && Path(g, q) && k < |q| && q[0] == d && Reachable(g, b) && Dom(g, d, b)
    ensures Reachable(g, q[k])
  {
    if k == 0 {
      DomIsReachable(g, d, b);
    } else {
      PathReachable(g, q, k - 1, d, b);
      EdgeReachable(g, q[k - 1], q[k]);
    }
  }

  // ---------------------------------------------------------------- reaching definitions

  /** The definition of v that the renaming stack holds when b is entered. */
  ghost function Top(f: Func, t: DomTree, phis: seq<set<nat>>, b: nat, v: nat): Option<Ref>
    requires f.Valid() && TreeOf(f.g, t) && |phis| == |f.blocks| && b < |f.blocks|
    decreases Dominators(f.g, b), 1
  {
    if v in phis[b] then Some(Phi(b, v)) else Inherited(f, t, phis, b, v)
  }

  /** The definition of v at the end of the immediate dominator of b. */
  ghost function Inherited(f: Func, t: DomTree, phis: seq<set<nat>>, b: nat, v: nat): Option<Ref>
    requires f.Valid() && TreeOf(f.g, t) && |phis| == |f.blocks| && b < |f.blocks|
    decreases Dominators(f.g, b), 0
  {
    if b in t.idom then
      DominatorsShrink(f.g, t.idom[b], b);
      TopAt(f, t, phis, t.idom[b], |f.blocks[t.idom[b]].insts|, v)
    else None
  }

  /** The definition of v on the stack before instruction k of b. */
  ghost function TopAt(f: Func, t: DomTree, phis: seq<set<nat>>, b: nat, k: nat, v: nat): Option<Ref>
    requires f.Valid() && TreeOf(f.g, t) && |phis| == |f.blocks| && b < |f.blocks| && k <= |f.blocks[b].insts|
    decreases Dominators(f.g, b), k + 2
  {
    if k == 0 then Top(f, t, phis, b, v)
    else
      var rets := f.blocks[b].insts[k - 1].rets;
      if v in rets then Some(Res(b, k - 1, Last(rets, v))) else TopAt(f, t, phis, b, k - 1, v)
  }

  ghost function Out(f: Func, t: DomTree, phis: seq<set<nat>>, b: nat, v: nat): Option<Ref>
    requires f.Valid() && TreeOf(f.g, t) && |phis| == |f.blocks| && b < |f.blocks|
  {
    TopAt(f, t, phis, b, |f.blocks[b].insts|, v)
  }

  lemma TopAtEntry(f: Func, t: DomTree, phis: seq<set<nat>>, b: nat, v: nat)
    requires f.Valid() && TreeOf(f.g, t) && |phis| == |f.blocks| && b < |f.blocks|
    ensures v in phis[b] ==> TopAt(f, t, phis, b, 0, v) == Some(Phi(b, v))
    ensures v !in phis[b] && b in t.idom ==> TopAt(f, t, phis, b, 0, v) == Out(f, t, phis, t.idom[b], v)
    ensures v !in phis[b] && b !in t.idom ==> TopAt(f, t, phis, b, 0, v) == None
  {
    assert TopAt(f, t, phis, b, 0, v) == Top(f, t, phis, b, v);
    assert v !in phis[b] ==> Top(f, t, phis, b, v) == Inherited(f, t, phis, b, v);
  }
}
