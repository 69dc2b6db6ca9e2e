/** Removal of PHI cycles that no instruction depends on (the end of PhiPlacement in
    core/parser_phi.cpp). */
module DeadPhis {
  import opened Cfg
  import opened Options
  import opened Ssa
  import opened SsaForm

  datatype User = ByPhi(r: Ref) | ByInst(b: nat, k: nat)

  predicate Mentions(operands: map<nat, Operand>, r: Ref) {
    exists p :: p in operands && operands[p] == Use(r)
  }

  function PhisOf(f: Func): (s: set<Ref>)
    ensures forall r :: r in s <==> r.Phi? && r.b < |f.blocks| && r.id in f.blocks[r.b].phis
  {
    set b, id | 0 <= b < |f.blocks| && id in f.blocks[b].phis :: Phi(b, id)
  }

  predicate IsUser(f: Func, r: Ref, u: User) {
    match u
    case ByPhi(p) => p.Phi? && p.b < |f.blocks| && p.id in f.blocks[p.b].phis && Mentions(f.blocks[p.b].phis[p.id], r)
    case ByInst(b, k) => b < |f.blocks| && k < |f.blocks[b].insts| && Use(r) in f.blocks[b].insts[k].args
  }

  function PhiUsers(f: Func, r: Ref): (s: set<User>)
    ensures forall u :: u in s <==> u.ByPhi? && IsUser(f, r, u)
  {
    set p | p in PhisOf(f) && Mentions(f.blocks[p.b].phis[p.id], r) :: ByPhi(p)
  }

  function InstUsers(f: Func, r: Ref): (s: set<User>)
    ensures forall u :: u in s <==> u.ByInst? && IsUser(f, r, u)
  {
    set b: nat, k: nat | b < |f.blocks| && k < |f.blocks[b].insts| && Use(r) in f.blocks[b].insts[k].args ::
      ByInst(b, k)
  }

  /** The users of a value, as its use list enumerates them. */
  function Users(f: Func, r: Ref): (s: set<User>)
    ensures forall u :: u in s <==> IsUser(f, r, u)
  {
    PhiUsers(f, r) + InstUsers(f, r)
  }

  /** Each PHI of c is used by the next one, and the last by an instruction. */
  ghost predicate Chain(f: Func, c: seq<Ref>) {
    && |c| > 0
    && (if |c| == 1 then exists u :: u in Users(f, c[0]) && u.ByInst?
        else ByPhi(c[1]) in Users(f, c[0]) && Chain(f, c[1..]))
  }

  /** Some instruction depends on r, directly or through PHIs. */
  ghost predicate Needed(f: Func, r: Ref) {
    exists c :: Chain(f, c) && c[0] == r
  }

  // ---------------------------------------------------------------- dependence, spelled out

  /** The PHI q takes a value from p on some edge. */
  ghost predicate Feeds(f: Func, p: Ref, q: Ref) {
    q.Phi? && q.b < |f.blocks| && q.id in f.blocks[q.b].phis &&
      exists c :: c in f.blocks[q.b].phis[q.id] && f.blocks[q.b].phis[q.id][c] == Use(p)
  }

  /** p is an operand of an instruction. */
  ghost predicate ReadByInst(f: Func, p: Ref) {
    exists b: nat, k: nat, j: nat :: ReadAt(f, p, b, k, j)
  }

  ghost predicate ReadAt(f: Func, p: Ref, b: nat, k: nat, j: nat) {
    b < |f.blocks| && k < |f.blocks[b].insts| && j < |f.blocks[b].insts[k].args|
    && f.blocks[b].insts[k].args[j] == Use(p)
  }

  /** The values of c flow from one PHI to the next, and the last one into an instruction. */
  ghost predicate Flows(f: Func, c: seq<Ref>) {
    && |c| > 0 && ReadByInst(f, c[|c| - 1])
    && forall i :: 0 <= i < |c| - 1 ==> Feeds(f, c[i], c[i + 1])
  }

  ghost predicate FlowsToInst(f: Func, r: Ref) {
    exists c :: Flows(f, c) && c[0] == r
  }

  /** Being needed means that: some instruction reads the value or what PHIs make of it. */
  lemma NeededExact(f: Func, r: Ref)
    ensures Needed(f, r) <==> FlowsToInst(f, r)
  {
    hide Users, Feeds, ReadByInst;
    if c :| Chain(f, c) && c[0] == r {
      ChainFlows(f, c);
    }
    if c :| Flows(f, c) && c[0] == r {
      FlowsChain(f, c);
    }
  }

  lemma UsersExact(f: Func, p: Ref)
    ensures ReadByInst(f, p) <==> exists u :: u in Users(f, p) && u.ByInst?
    ensures forall q :: Feeds(f, p, q) <==> ByPhi(q) in Users(f, p)
  {
    if b: nat, k: nat, j: nat :| ReadAt(f, p, b, k, j) {
      assert ByInst(b, k) in Users(f, p);
    }
    if u :| u in Users(f, p) && u.ByInst? {
      var j :| 0 <= j < |f.blocks[u.b].insts[u.k].args| && f.blocks[u.b].insts[u.k].args[j] == Use(p);
      assert ReadAt(f, p, u.b, u.k, j);
    }
  }

  lemma {:induction false} ChainFlows(f: Func, c: seq<Ref>)
    requires Chain(f, c)
    ensures Flows(f, c)
    decreases |c|
  {
    hide Users, Feeds, ReadByInst;
    UsersExact(f, c[0]);
    if |c| > 1 {
      ChainFlows(f, c[1..]);
      forall i | 0 <= i < |c| - 1
        ensures Feeds(f, c[i], c[i + 1])
      {
        if i > 0 {
          assert Feeds(f, c[1..][i - 1], c[1..][i]);
        }
      }
    }
  }

  lemma {:induction false} FlowsChain(f: Func, c: seq<Ref>)
    requires Flows(f, c)
    ensures Chain(f, c)
    decreases |c|
  {
    hide Users, Feeds, ReadByInst;
    UsersExact(f, c[0]);
    if |c| > 1 {
      assert Feeds(f, c[0], c[1]);
      forall i | 0 <= i < |c[1..]| - 1
        ensures Feeds(f, c[1..][i], c[1..][i + 1])
      {
        assert Feeds(f, c[i + 1], c[i + 2]);
      }
      FlowsChain(f, c[1..]);
    }
  }

  /** All users of p are PHIs of s. */
  ghost predicate UsersWithin(f: Func, p: Ref, s: set<Ref>) {
    forall u :: u in Users(f, p) ==> u.ByPhi? && u.r in s
  }

  ghost predicate Within(f: Func, from: set<Ref>, s: set<Ref>) {
    forall p :: p in from ==> UsersWithin(f, p, s)
  }

  lemma WithinGrows(f: Func, from: set<Ref>, s: set<Ref>, s': set<Ref>)
    requires Within(f, from, s) && s <= s'
    ensures Within(f, from, s')
  {
    forall p | p in from
      ensures UsersWithin(f, p, s')
    {
      assert UsersWithin(f, p, s);
    }
  }

  lemma NeededThrough(f: Func, p: Ref, q: Ref)
    requires ByPhi(q) in Users(f, p) && Needed(f, q)
    ensures Needed(f, p)
  {
    var c :| Chain(f, c) && c[0] == q;
    assert ([p] + c)[1..] == c;
    assert Chain(f, [p] + c);
  }

  lemma {:induction false} ChainStays(f: Func, c: seq<Ref>, s: set<Ref>)
    requires Chain(f, c) && Within(f, s, s) && c[0] in s
    ensures false
    decreases |c|
  {
    assert UsersWithin(f, c[0], s);
    if |c| > 1 {
      ChainStays(f, c[1..], s);
    }
  }

  lemma ClosedNotNeeded(f: Func, s: set<Ref>)
    requires Within(f, s, s)
    ensures forall p :: p in s ==> !Needed(f, p)
  {
    forall p | p in s
      ensures !Needed(f, p)
    {
      if Needed(f, p) {
        var c :| Chain(f, c) && c[0] == p;
        ChainStays(f, c, s);
      }
    }
  }

  /** Follows the users of a PHI; cycle collects the PHIs met so far. */
  method IsDeadCycle(f: Func, phi: Ref, cycle: set<Ref>) returns (dead: bool, cycle': set<Ref>)
    requires cycle <= PhisOf(f) && phi in PhisOf(f)
    ensures cycle <= cycle' <= PhisOf(f)
    ensures dead ==> phi in cycle' && Within(f, cycle' - cycle, cycle')
    ensures !dead ==> Needed(f, phi)
    decreases PhisOf(f) - cycle
  {
    hide Users, PhisOf, Needed;
    if phi in cycle {
      return true, cycle;
    }
    cycle' := cycle + {phi};
    var rest := Users(f, phi);
    while rest != {}
      invariant rest <= Users(f, phi)
      invariant cycle + {phi} <= cycle' <= PhisOf(f)
      invariant Within(f, cycle' - cycle - {phi}, cycle')
      invariant forall u :: u in Users(f, phi) - rest ==> u.ByPhi? && u.r in cycle'
      decreases rest
    {
      var u :| u in rest;
      rest := rest - {u};
      if u.ByInst? {
        DirectlyNeeded(f, phi, u);
        return false, cycle';
      }
      ghost var before := cycle';
      dead, cycle' := IsDeadCycle(f, u.r, cycle');
      if !dead {
        NeededThrough(f, phi, u.r);
        return;
      }
      WithinGrows(f, before - cycle - {phi}, before, cycle');
      assert cycle' - cycle - {phi} == (before - cycle - {phi}) + (cycle' - before);
    }
    assert UsersWithin(f, phi, cycle');
    assert cycle' - cycle == (cycle' - cycle - {phi}) + {phi};
    return true, cycle';
  }

  lemma DirectlyNeeded(f: Func, phi: Ref, u: User)
    requires u in Users(f, phi) && u.ByInst?
    ensures Needed(f, phi)
  {
    assert Chain(f, [phi]);
  }

  // ---------------------------------------------------------------- erasure

  function Erase(f: Func, dead: set<Ref>): (g: Func)
    ensures g.g == f.g && |g.blocks| == |f.blocks|
    ensures f.Valid() ==> g.Valid()
  {
    Func(f.g, seq(|f.blocks|, b requires 0 <= b < |f.blocks| => EraseBlock(f.blocks[b], b, dead)))
  }

  function EraseBlock(block: Block, b: nat, dead: set<Ref>): Block {
    Block(map id | id in block.phis && Phi(b, id) !in dead :: block.phis[id], block.insts)
  }

  /** dead is closed under users: what remains never mentions it. */
  ghost predicate Unread(f: Func, dead: set<Ref>) {
    Within(f, dead, dead) && forall r :: r in dead ==> r.Phi?
  }

  lemma EraseUsers(f: Func, dead: set<Ref>, r: Ref)
    requires Unread(f, dead) && r !in dead
    ensures forall u :: u in Users(Erase(f, dead), r) <==> u in Users(f, r) && (u.ByPhi? ==> u.r !in dead)
  {
    var g := Erase(f, dead);
    forall u
      ensures u in Users(g, r) <==> u in Users(f, r) && (u.ByPhi? ==> u.r !in dead)
    {
      match u
      case ByInst(b, k) =>
        assert b < |f.blocks| ==> g.blocks[b].insts == f.blocks[b].insts;
      case ByPhi(p) =>
        if p.Phi? && p.b < |f.blocks| {
          assert g.blocks[p.b] == EraseBlock(f.blocks[p.b], p.b, dead);
        } else {
          assert u !in Users(f, r) && u !in Users(g, r) by {
            assert p !in PhisOf(f) && p !in PhisOf(g);
          }
        }
    }
  }

  lemma InstsIgnoreDead(f: Func, dead: set<Ref>, b: nat, k: nat, r: Ref)
    requires Unread(f, dead) && b < |f.blocks| && k < |f.blocks[b].insts| && r in dead
    ensures Use(r) !in f.blocks[b].insts[k].args
  {
    assert UsersWithin(f, r, dead);
    assert ByInst(b, k) in Users(f, r) <==> Use(r) in f.blocks[b].insts[k].args;
  }

  lemma PhisIgnoreDead(f: Func, dead: set<Ref>, b: nat, id: nat, from: nat, r: Ref)
    requires Unread(f, dead) && b < |f.blocks| && id in f.blocks[b].phis && from in f.blocks[b].phis[id] && r in dead
    requires Phi(b, id) !in dead
    ensures f.blocks[b].phis[id][from] != Use(r)
  {
    assert UsersWithin(f, r, dead);
    assert ByPhi(Phi(b, id)) in Users(f, r) <==> Mentions(f.blocks[b].phis[id], r);
  }

  lemma ReadsSame(f: Func, dead: set<Ref>, b: nat, k: nat, e: Env, e': Env)
    requires Unread(f, dead) && b < |f.blocks| && k < |f.blocks[b].insts| && AgreeBut(dead, e, e')
    ensures forall a :: a in f.blocks[b].insts[k].args ==> Read(a, e) == Read(a, e')
  {
    forall r | r in dead
      ensures Use(r) !in f.blocks[b].insts[k].args
    {
      InstsIgnoreDead(f, dead, b, k, r);
    }
  }

  lemma InstSame(f: Func, dead: set<Ref>, o: Oracle, b: nat, k: nat, e: Env, e': Env, log: seq<Event>)
    requires Unread(f, dead) && b < |f.blocks| && k < |f.blocks[b].insts| && AgreeBut(dead, e, e')
    ensures PointsAgree(dead, ExecInst(b, k, f.blocks[b].insts[k], o, e, log),
      ExecInst(b, k, f.blocks[b].insts[k], o, e', log))
  {
    var inst := f.blocks[b].insts[k];
    ReadsSame(f, dead, b, k, e, e');
    forall j | 0 <= j < |inst.args|
      ensures Read(inst.args[j], e) == Read(inst.args[j], e')
    {
      assert inst.args[j] in inst.args;
    }
    ExecInstAgrees(b, k, inst, inst, o, dead, e, e', log);
  }

  lemma {:induction false} BlockSame(f: Func, dead: set<Ref>, o: Oracle, b: nat, k: nat, e: Env, e': Env,
                                     log: seq<Event>)
    requires Unread(f, dead) && b < |f.blocks| && k <= |f.blocks[b].insts| && AgreeBut(dead, e, e')
    ensures var g := Erase(f, dead); b < |g.blocks| && k <= |g.blocks[b].insts|
    ensures PointsAgree(dead, Exec(f, o, b, k, e, log), Exec(Erase(f, dead), o, b, k, e', log))
  {
    if k > 0 {
      BlockSame(f, dead, o, b, k - 1, e, e', log);
      var p, p' := Exec(f, o, b, k - 1, e, log), Exec(Erase(f, dead), o, b, k - 1, e', log);
      if p.Pt? {
        InstSame(f, dead, o, b, k - 1, p.e, p'.e, p.log);
      }
    }
  }

  lemma PhisSame(f: Func, dead: set<Ref>, from: nat, to: nat, e: Env, e': Env)
    requires Unread(f, dead) && to < |f.blocks| && AgreeBut(dead, e, e')
    ensures AgreeBut(dead, EnterPhis(f.blocks[to].phis, from, to, e),
      EnterPhis(Erase(f, dead).blocks[to].phis, from, to, e'))
  {
    var x, x' := EnterPhis(f.blocks[to].phis, from, to, e), EnterPhis(Erase(f, dead).blocks[to].phis, from, to, e');
    forall r | r !in dead
      ensures x.refs(r) == x'.refs(r)
    {
      if r.Phi? && r.b == to && r.id in f.blocks[to].phis && from in f.blocks[to].phis[r.id] {
        forall d | d in dead
          ensures f.blocks[to].phis[r.id][from] != Use(d)
        {
          PhisIgnoreDead(f, dead, to, r.id, from, d);
        }
      }
    }
  }

  /** Erasing PHIs that only dead PHIs use changes no run. */
  lemma {:induction false} EraseKeepsRuns(f: Func, dead: set<Ref>, o: Oracle, n: nat)
    requires f.Valid() && Unread(f, dead)
    ensures Seen(Steps(Erase(f, dead), o, n)) == Seen(Steps(f, o, n))
    ensures Steps(f, o, n).At? ==> AgreeBut(dead, Steps(f, o, n).e, Steps(Erase(f, dead), o, n).e)
  {
    hide Unread, Erase;
    if n > 0 {
      EraseKeepsRuns(f, dead, o, n - 1);
      var s, s' := Steps(f, o, n - 1), Steps(Erase(f, dead), o, n - 1);
      if s.At? && s.b < |f.blocks| {
        StepSame(f, dead, o, s, s');
      } else {
        EraseShape(f, dead);
      }
    } else {
      EraseShape(f, dead);
    }
  }

  lemma EraseShape(f: Func, dead: set<Ref>)
    ensures |Erase(f, dead).blocks| == |f.blocks|
  {
  }

  lemma StepSame(f: Func, dead: set<Ref>, o: Oracle, s: State, s': State)
    requires f.Valid() && Unread(f, dead)
    requires s.At? && s'.At? && s.b == s'.b < |f.blocks| && s.log == s'.log && AgreeBut(dead, s.e, s'.e)
    ensures Seen(Step(Erase(f, dead), o, s')) == Seen(Step(f, o, s))
    ensures Step(f, o, s).At? ==> AgreeBut(dead, Step(f, o, s).e, Step(Erase(f, dead), o, s').e)
  {
    var g := Erase(f, dead);
    var k := |f.blocks[s.b].insts|;
    BlockSame(f, dead, o, s.b, k, s.e, s'.e, s.log);
    var p, p' := Exec(f, o, s.b, k, s.e, s.log), Exec(g, o, s.b, k, s'.e, s.log);
    assert g.blocks[s.b].insts == f.blocks[s.b].insts;
    var t := Step(f, o, s);
    if t.At? {
      PhisSame(f, dead, s.b, t.b, p.e, p'.e);
    }
  }

  /** Nor does it change an operand that an instruction reads. */
  lemma EraseKeepsReads(f: Func, dead: set<Ref>, o: Oracle, n: nat, k: nat)
    requires f.Valid() && Unread(f, dead)
    ensures ReadsAlike(f, Erase(f, dead), o, n, k)
  {
    hide Unread, Erase, Steps, Exec;
    EraseKeepsRuns(f, dead, o, n);
    EraseShape(f, dead);
    var s, s' := Steps(f, o, n), Steps(Erase(f, dead), o, n);
    if s.At? && s.b < |f.blocks| && k <= |f.blocks[s.b].insts| {
      BlockSame(f, dead, o, s.b, k, s.e, s'.e, s.log);
    }
  }

  /** Operands still name existing results. */
  lemma EraseKeepsComplete(f: Func, dead: set<Ref>)
    requires f.Valid() && Unread(f, dead) && Complete(f)
    ensures Complete(Erase(f, dead))
  {
    hide Unread;
    var g := Erase(f, dead);
    forall b: nat | b < |g.blocks| && Reachable(g.g, b)
      ensures CompleteBlock(g, b)
    {
      assert CompleteBlock(f, b);
      forall k: nat, j: nat | k < |g.blocks[b].insts| && j < |g.blocks[b].insts[k].args|
        ensures CompleteArg(g, g.blocks[b].insts[k].args[j]) || UndefMove(g.blocks[b].insts[k])
      {
        var a := f.blocks[b].insts[k].args[j];
        if a.Use? && a.r in dead {
          InstsIgnoreDead(f, dead, b, k, a.r);
        }
      }
      forall id, p: nat | id in g.blocks[b].phis && p in g.blocks[b].phis[id] && IsPred(g.g, p, b)
        ensures CompleteArg(g, g.blocks[b].phis[id][p]) || g.blocks[b].phis[id][p] == Undef
      {
        var a := f.blocks[b].phis[id][p];
        assert IsPred(f.g, p, b);
        if a.Use? && a.r in dead {
          PhisIgnoreDead(f, dead, b, id, p, a.r);
        }
      }
    }
  }

  // ---------------------------------------------------------------- the pass

  /** h is f without some PHIs that nothing needs. */
  ghost predicate Trimmed(f: Func, h: Func, dead: set<Ref>) {
    h == Erase(f, dead) && Unread(f, dead)
  }

  lemma TrimMore(f: Func, h: Func, dead: set<Ref>, more: set<Ref>)
    requires Trimmed(f, h, dead) && Unread(h, more)
    ensures Trimmed(f, Erase(h, more), dead + more)
  {
    forall p | p in dead + more
      ensures UsersWithin(f, p, dead + more)
    {
      if p in dead {
        assert UsersWithin(f, p, dead);
      } else {
        assert UsersWithin(h, p, more);
        EraseUsers(f, dead, p);
      }
    }
    var g, g' := Erase(h, more), Erase(f, dead + more);
    forall b | 0 <= b < |f.blocks|
      ensures g.blocks[b] == g'.blocks[b]
    {
      assert h.blocks[b] == EraseBlock(f.blocks[b], b, dead);
      assert g.blocks[b].phis == g'.blocks[b].phis;
    }
  }

  /** A PHI that something still needs was needed in the original program. */
  lemma {:induction false} NeededBefore(f: Func, h: Func, dead: set<Ref>, c: seq<Ref>)
    requires Trimmed(f, h, dead) && Chain(h, c) && c[0] !in dead
    ensures Chain(f, c)
    decreases |c|
  {
    EraseUsers(f, dead, c[0]);
    if |c| > 1 {
      assert ByPhi(c[1]) in Users(h, c[0]);
      NeededBefore(f, h, dead, c[1..]);
    } else {
      var u :| u in Users(h, c[0]) && u.ByInst?;
      assert u in Users(f, c[0]);
    }
  }

  /** Erases exactly the PHIs that no instruction depends on; no run changes. */
  method RemoveDeadPhis(f: Func) returns (g: Func)
    requires f.Valid()
    ensures g.Valid() && g.g == f.g
    ensures g == Erase(f, set r | r in PhisOf(f) && !Needed(f, r)) && SameOps(f, g)
    ensures PhisOf(g) == set r | r in PhisOf(f) && FlowsToInst(f, r)
    ensures DefsDominateUses(f) ==> DefsDominateUses(g)
    ensures Complete(f) ==> Complete(g)
    ensures SameRuns(f, g) && SameReads(f, g)
  {
    g := f;
    ghost var dead: set<Ref> := {};
    EraseNothing(f);
    var todo := PhisOf(f);
    while todo != {}
      invariant todo <= PhisOf(f) && dead <= PhisOf(f)
      invariant Trimmed(f, g, dead)
      invariant forall r :: r in PhisOf(f) - todo - dead ==> Needed(f, r)
      decreases todo
    {
      hide Users, Unread, Erase, Needed, PhisOf;
      var phi :| phi in todo;
      todo := todo - {phi};
      StillThere(f, g, dead, phi);
      if phi in PhisOf(g) {
        var isDead, cycle := IsDeadCycle(g, phi, {});
        if isDead {
          CycleUnread(g, cycle);
          TrimMore(f, g, dead, cycle);
          StillPhis(f, g, dead);
          g := Erase(g, cycle);
          dead := dead + cycle;
        } else {
          WasNeeded(f, g, dead, phi);
        }
      }
    }
    ExactlyDead(f, dead);
    if DefsDominateUses(f) {
      EraseKeepsDominance(f, dead);
    }
    if Complete(f) {
      EraseKeepsComplete(f, dead);
    }
    EraseKeepsMeaning(f, dead);
    EraseKeepsOps(f, dead);
    ExactlyLeft(f, dead);
  }

  lemma EraseKeepsOps(f: Func, dead: set<Ref>)
    ensures SameOps(f, Erase(f, dead))
  {
    hide Reachable;
    var g := Erase(f, dead);
    forall b: nat | b < |f.blocks|
      ensures g.blocks[b].insts == f.blocks[b].insts
    {
      assert g.blocks[b] == EraseBlock(f.blocks[b], b, dead);
    }
  }

  lemma ExactlyLeft(f: Func, dead: set<Ref>)
    requires dead == set r | r in PhisOf(f) && !Needed(f, r)
    ensures PhisOf(Erase(f, dead)) == set r | r in PhisOf(f) && FlowsToInst(f, r)
  {
    hide Needed, FlowsToInst;
    var g := Erase(f, dead);
    forall r: Ref
      ensures r in PhisOf(g) <==> r in PhisOf(f) && FlowsToInst(f, r)
    {
      NeededExact(f, r);
      if r.b < |f.blocks| {
        assert g.blocks[r.b] == EraseBlock(f.blocks[r.b], r.b, dead);
      }
    }
  }

  lemma EraseKeepsMeaning(f: Func, dead: set<Ref>)
    requires f.Valid() && Unread(f, dead)
    ensures SameRuns(f, Erase(f, dead)) && SameReads(f, Erase(f, dead))
  {
    hide Unread, Erase, Steps, ReadsAlike;
    forall o: Oracle, n: nat
      ensures Seen(Steps(Erase(f, dead), o, n)) == Seen(Steps(f, o, n))
    {
      EraseKeepsRuns(f, dead, o, n);
    }
    forall o: Oracle, n: nat, k: nat
      ensures ReadsAlike(f, Erase(f, dead), o, n, k)
    {
      EraseKeepsReads(f, dead, o, n, k);
    }
  }

  lemma EraseNothing(f: Func)
    ensures Trimmed(f, f, {})
  {
    var g := Erase(f, {});
    forall b | 0 <= b < |f.blocks|
      ensures g.blocks[b] == f.blocks[b]
    {
      assert g.blocks[b].phis == f.blocks[b].phis;
    }
  }

  lemma StillThere(f: Func, g: Func, dead: set<Ref>, phi: Ref)
    requires Trimmed(f, g, dead) && phi in PhisOf(f)
    ensures phi in PhisOf(g) <==> phi !in dead
  {
    assert g.blocks[phi.b] == EraseBlock(f.blocks[phi.b], phi.b, dead);
  }

  lemma StillPhis(f: Func, g: Func, dead: set<Ref>)
    requires Trimmed(f, g, dead)
    ensures PhisOf(g) <= PhisOf(f)
  {
    forall r | r in PhisOf(g)
      ensures r in PhisOf(f)
    {
      assert g.blocks[r.b] == EraseBlock(f.blocks[r.b], r.b, dead);
    }
  }

  lemma CycleUnread(g: Func, cycle: set<Ref>)
    requires cycle <= PhisOf(g) && Within(g, cycle - {}, cycle)
    ensures Unread(g, cycle)
  {
    assert cycle - {} == cycle;
  }

  lemma WasNeeded(f: Func, g: Func, dead: set<Ref>, phi: Ref)
    requires Trimmed(f, g, dead) && Needed(g, phi) && phi !in dead
    ensures Needed(f, phi)
  {
    var c :| Chain(g, c) && c[0] == phi;
    NeededBefore(f, g, dead, c);
  }

  lemma ExactlyDead(f: Func, dead: set<Ref>)
    requires Unread(f, dead) && dead <= PhisOf(f)
    requires forall r :: r in PhisOf(f) - dead ==> Needed(f, r)
    ensures dead == set r | r in PhisOf(f) && !Needed(f, r)
  {
    ClosedNotNeeded(f, dead);
  }

  /** Erasure leaves a program whose definitions dominate their uses. */
  lemma EraseKeepsDominance(f: Func, dead: set<Ref>)
    requires f.Valid() && Unread(f, dead) && DefsDominateUses(f)
    ensures DefsDominateUses(Erase(f, dead))
  {
    hide Unread;
    var g := Erase(f, dead);
    forall b: nat | b < |f.blocks| && Reachable(f.g, b)
      ensures BlockOk(g, b)
    {
      assert BlockOk(f, b);
      forall k | 0 <= k < |f.blocks[b].insts|
        ensures InstOk(g, b, k)
      {
        assert InstOk(f, b, k);
        forall j | 0 <= j < |f.blocks[b].insts[k].args|
          ensures OperandOk(g, f.blocks[b].insts[k].args[j], b, k)
        {
          var a := f.blocks[b].insts[k].args[j];
          assert OperandOk(f, a, b, k);
          if a.Use? && a.r in dead {
            InstsIgnoreDead(f, dead, b, k, a.r);
          } else {
            OperandStays(f, dead, a, b, k);
          }
        }
      }
      forall i | 0 <= i < |f.g.succs[b]|
        ensures EdgeOk(g, b, f.g.succs[b][i])
      {
        EdgeStays(f, dead, b, f.g.succs[b][i]);
      }
    }
  }

  lemma OperandStays(f: Func, dead: set<Ref>, a: Operand, b: nat, k: nat)
    requires OperandOk(f, a, b, k) && (a.Use? ==> a.r !in dead)
    ensures OperandOk(Erase(f, dead), a, b, k)
  {
  }

  lemma EdgeStays(f: Func, dead: set<Ref>, b: nat, s: nat)
    requires Unread(f, dead) && b < |f.blocks| && s < |f.blocks| && EdgeOk(f, b, s)
    ensures EdgeOk(Erase(f, dead), b, s)
  {
    hide Unread;
    var g := Erase(f, dead);
    forall id | id in g.blocks[s].phis
      ensures PhiOk(g, b, s, id)
    {
      assert PhiOk(f, b, s, id);
      var a := f.blocks[s].phis[id][b];
      if a.Use? && a.r in dead {
        PhisIgnoreDead(f, dead, s, id, b, a.r);
      } else {
        OperandStays(f, dead, a, b, |f.blocks[b].insts|);
      }
    }
  }

  /** After the removal every PHI is needed. */
  lemma RemainingNeeded(f: Func)
    ensures var g := Erase(f, set r | r in PhisOf(f) && !Needed(f, r));
      forall p :: p in PhisOf(g) ==> FlowsToInst(g, p)
  {
    hide FlowsToInst;
    var dead := set r | r in PhisOf(f) && !Needed(f, r);
    var g := Erase(f, dead);
    NotNeededUnread(f);
    StillPhis(f, g, dead);
    forall p | p in PhisOf(g)
      ensures FlowsToInst(g, p)
    {
      NeededExact(g, p);
      StillThere(f, g, dead, p);
      var c :| Chain(f, c) && c[0] == p;
      StillChain(f, g, dead, c);
    }
  }

  lemma NotNeededUnread(f: Func)
    ensures Unread(f, set r | r in PhisOf(f) && !Needed(f, r))
  {
    var dead := set r | r in PhisOf(f) && !Needed(f, r);
    forall p, u | p in dead && u in Users(f, p)
      ensures u.ByPhi? && u.r in dead
    {
      if u.ByInst? {
        DirectlyNeeded(f, p, u);
      } else if Needed(f, u.r) {
        NeededThrough(f, p, u.r);
      }
    }
  }

  lemma {:induction false} StillChain(f: Func, g: Func, dead: set<Ref>, c: seq<Ref>)
    requires Trimmed(f, g, dead) && dead == (set r | r in PhisOf(f) && !Needed(f, r))
    requires Chain(f, c) && c[0] !in dead
    ensures Chain(g, c)
    decreases |c|
  {
    EraseUsers(f, dead, c[0]);
    if |c| > 1 {
      assert Needed(f, c[1]) by {
        assert Chain(f, c[1..]);
      }
      StillChain(f, g, dead, c[1..]);
    } else {
      var u :| u in Users(f, c[0]) && u.ByInst?;
      assert u in Users(g, c[0]);
    }
  }
}
