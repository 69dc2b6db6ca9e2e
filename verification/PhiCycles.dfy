/** Collapsing PHI cycles (PhiEqualTo and its use in passes/eliminate_tags.cpp). */
module PhiCycles {
  import opened Cfg
  import opened Ssa
  import opened SsaForm

  predicate IsPhi(f: Func, r: Ref) {
    r.Phi? && r.b < |f.blocks| && r.id in f.blocks[r.b].phis
  }

  function Incoming(f: Func, r: Ref): map<nat, Operand>
    requires IsPhi(f, r)
  {
    f.blocks[r.b].phis[r.id]
  }

  /** Each operand of a PHI of s is op or another PHI of s. */
  ghost predicate ClosedUnder(f: Func, s: set<Ref>, op: Operand) {
    && (forall p :: p in s ==> IsPhi(f, p))
    && (forall p, c :: p in s && c in Incoming(f, p) ==> Allowed(s, op, Incoming(f, p)[c]))
  }

  ghost predicate Allowed(s: set<Ref>, op: Operand, a: Operand) {
    a == op || (a.Use? && a.r.Phi? && a.r in s)
  }

  /** PHI operands that are PHIs exist. */
  ghost predicate PhisExist(f: Func) {
    forall p, c :: IsPhi(f, p) && c in Incoming(f, p) && Incoming(f, p)[c].Use? && Incoming(f, p)[c].r.Phi?
      ==> IsPhi(f, Incoming(f, p)[c].r)
  }

  function AllPhis(f: Func): (s: set<Ref>)
    ensures forall r :: r in s <==> IsPhi(f, r)
  {
    set b, id | 0 <= b < |f.blocks| && id in f.blocks[b].phis :: Phi(b, id)
  }

  /** The operands met so far are op or collected; every collected PHI is expected in any closed set. */
  ghost predicate Searching(f: Func, phi: Ref, op: Operand, phis: set<Ref>, q: seq<Ref>) {
    && phi in phis && phis <= AllPhis(f)
    && (forall r :: r in q ==> r in phis)
    && (forall p, c :: p in phis && p !in q && c in Incoming(f, p) ==> Allowed(phis, op, Incoming(f, p)[c]))
    && (forall s :: ClosedUnder(f, s, op) && phi in s ==> phis <= s)
  }

  /** Whether everything that flows into phi is op: exactly when some set of PHIs around phi
      is closed under op. */
  method PhiEqualTo(f: Func, phi: Ref, op: Operand) returns (eq: bool, ghost phis: set<Ref>)
    requires IsPhi(f, phi) && PhisExist(f)
    ensures eq ==> ClosedUnder(f, phis, op) && phi in phis
    ensures !eq ==> forall s :: ClosedUnder(f, s, op) ==> phi !in s
  {
    var seen := {phi};
    var q := [phi];
    while q != []
      invariant Searching(f, phi, op, seen, q)
      decreases AllPhis(f) - seen, |q|
    {
      hide AllPhis;
      var p := q[0];
      Dequeue(f, phi, op, seen, q);
      eq, seen, q := VisitIncoming(f, phi, op, p, seen, q[1..]);
      if !eq {
        phis := {};
        return;
      }
    }
    return true, seen;
  }

  lemma Dequeue(f: Func, phi: Ref, op: Operand, phis: set<Ref>, q: seq<Ref>)
    requires q != [] && Searching(f, phi, op, phis, q)
    ensures Partly(f, phi, op, q[0], {}, phis, q[1..])
  {
    assert q == [q[0]] + q[1..];
  }

  /** As Searching, but of the operands of p only those for done have been visited. */
  ghost predicate Partly(f: Func, phi: Ref, op: Operand, p: Ref, done: set<nat>, phis: set<Ref>, q: seq<Ref>) {
    && phi in phis && p in phis && phis <= AllPhis(f)
    && (forall r :: r in q ==> r in phis)
    && (forall r, c :: r in phis && r !in q && r != p && c in Incoming(f, r) ==> Allowed(phis, op, Incoming(f, r)[c]))
    && (forall c :: c in done && c in Incoming(f, p) ==> Allowed(phis, op, Incoming(f, p)[c]))
    && (forall s :: ClosedUnder(f, s, op) && phi in s ==> phis <= s)
  }

  method VisitIncoming(f: Func, ghost phi: Ref, op: Operand, p: Ref, phis0: set<Ref>, q0: seq<Ref>)
    returns (ok: bool, phis: set<Ref>, q: seq<Ref>)
    requires PhisExist(f) && Partly(f, phi, op, p, {}, phis0, q0)
    ensures ok ==> Searching(f, phi, op, phis, q)
    ensures ok ==> phis0 <= phis && (phis == phis0 ==> q == q0)
    ensures !ok ==> forall s :: ClosedUnder(f, s, op) ==> phi !in s
  {
    phis, q := phis0, q0;
    var rest := Incoming(f, p).Keys;
    while rest != {}
      invariant rest <= Incoming(f, p).Keys
      invariant Partly(f, phi, op, p, Incoming(f, p).Keys - rest, phis, q)
      invariant phis0 <= phis && (phis == phis0 ==> q == q0)
      decreases rest
    {
      var c: nat :| c in rest;
      rest := rest - {c};
      var value := Incoming(f, p)[c];
      if value != op {
        if value.Use? && value.r.Phi? {
          if value.r !in phis {
            Collect(f, phi, op, p, Incoming(f, p).Keys - rest - {c}, phis, q, c);
            phis := phis + {value.r};
            q := q + [value.r];
          }
        } else {
          Refuted(f, phi, op, phis, p, c);
          return false, phis, q;
        }
      }
      assert Incoming(f, p).Keys - rest == (Incoming(f, p).Keys - rest - {c}) + {c};
    }
    return true, phis, q;
  }

  lemma Collect(f: Func, phi: Ref, op: Operand, p: Ref, done: set<nat>, phis: set<Ref>, q: seq<Ref>, c: nat)
    requires PhisExist(f) && Partly(f, phi, op, p, done, phis, q) && c in Incoming(f, p)
    requires Incoming(f, p)[c] != op && Incoming(f, p)[c].Use? && Incoming(f, p)[c].r.Phi?
    ensures Partly(f, phi, op, p, done + {c}, phis + {Incoming(f, p)[c].r}, q + [Incoming(f, p)[c].r])
  {
    var value := Incoming(f, p)[c];
    forall s | ClosedUnder(f, s, op) && phi in s
      ensures phis + {value.r} <= s
    {
      assert p in s;
      assert Allowed(s, op, value);
    }
    forall r, d | r in phis + {value.r} && r !in q + [value.r] && r != p && d in Incoming(f, r)
      ensures Allowed(phis + {value.r}, op, Incoming(f, r)[d])
    {
      assert r in phis && r !in q;
      assert Allowed(phis, op, Incoming(f, r)[d]);
    }
  }

  lemma Refuted(f: Func, phi: Ref, op: Operand, phis: set<Ref>, p: Ref, c: nat)
    requires p in phis && IsPhi(f, p) && c in Incoming(f, p)
    requires forall s :: ClosedUnder(f, s, op) && phi in s ==> phis <= s
    requires Incoming(f, p)[c] != op && !(Incoming(f, p)[c].Use? && Incoming(f, p)[c].r.Phi?)
    ensures forall s :: ClosedUnder(f, s, op) ==> phi !in s
  {
    forall s | ClosedUnder(f, s, op)
      ensures phi !in s
    {
      assert !Allowed(s, op, Incoming(f, p)[c]);
    }
  }

  // ---------------------------------------------------------------- what a closed set means

  /** A valid program around a closed set of PHIs: ref is the value op refers to. */
  ghost predicate Cycle(f: Func, s: set<Ref>, ref: Ref) {
    && f.Valid() && DefsDominateUses(f) && f.blocks[0].phis == map[]
    && ClosedUnder(f, s, Use(ref))
  }

  /** The operand of a PHI for the predecessor on a run. */
  lemma OperandFor(f: Func, s: set<Ref>, ref: Ref, p: Ref, c: nat)
    requires Cycle(f, s, ref) && p in s && Edge(f.g, c, p.b) && Reachable(f.g, c) && c < |f.blocks|
    ensures c in Incoming(f, p)
    ensures var a := Incoming(f, p)[c];
      && a.Use? && Available(f, a.r, c, |f.blocks[c].insts|)
      && (a.r == ref || (a.r.Phi? && a.r in s))
  {
    assert BlockOk(f, c);
    var i :| 0 <= i < |f.g.succs[c]| && f.g.succs[c][i] == p.b;
    assert EdgeOk(f, c, f.g.succs[c][i]) && PhiOk(f, c, p.b, p.id);
    assert Allowed(s, Use(ref), Incoming(f, p)[c]);
  }

  /** Every run to a PHI of the set has executed the block of ref before. */
  lemma {:induction false} RunsThroughRef(f: Func, s: set<Ref>, ref: Ref, p: Ref, q: seq<nat>)
    requires Cycle(f, s, ref) && p in s && RunTo(f.g, q, p.b)
    ensures |q| >= 2 && ref !in s && ref.b in q[..|q| - 1]
    decreases |q|
  {
    hide DefsDominateUses, ClosedUnder;
    PhiNotInEntry(f, s, ref, p);
    var n := |q| - 2;
    var c := q[n];
    assert Edge(f.g, q[n], q[n + 1]);
    PrefixIsRun(f.g, q, n);
    OperandFor(f, s, ref, p, c);
    var a := Incoming(f, p)[c];
    assert a.r.b in q[..n + 1] by {
      DomReflexive(f.g, c);
    }
    var j := First(q[..n + 1], a.r.b);
    PrefixIsRun(f.g, q, j);
    if a.r in s {
      RunsThroughRef(f, s, ref, a.r, q[..j + 1]);
      assert ref.b in q[..j + 1][..j];
    }
  }

  lemma PhiNotInEntry(f: Func, s: set<Ref>, ref: Ref, p: Ref)
    requires Cycle(f, s, ref) && p in s
    ensures p.b != 0 && IsPhi(f, p)
  {
  }

  /** ref strictly dominates every PHI of the set. */
  lemma RefDominates(f: Func, s: set<Ref>, ref: Ref, p: Ref)
    requires Cycle(f, s, ref) && p in s && Reachable(f.g, p.b)
    ensures ref !in s && SDom(f.g, ref.b, p.b)
  {
    hide DefsDominateUses, ClosedUnder;
    forall q | RunTo(f.g, q, p.b)
      ensures ref.b in q
    {
      RunsThroughRef(f, s, ref, p, q);
    }
    var q :| RunTo(f.g, q, p.b);
    var i := First(q, p.b);
    PrefixIsRun(f.g, q, i);
    RunsThroughRef(f, s, ref, p, q[..i + 1]);
    assert q[..i + 1][..i] == q[..i];
  }

  /** Below a PHI of the set ref is not executed again. */
  lemma RefNotBelow(f: Func, s: set<Ref>, ref: Ref, p: Ref, b: nat)
    requires Cycle(f, s, ref) && p in s && Reachable(f.g, b) && Dom(f.g, p.b, b)
    ensures ref.b != b && Dom(f.g, ref.b, b)
  {
    DomIsReachable(f.g, p.b, b);
    RefDominates(f, s, ref, p);
    DomTransitive(f.g, ref.b, p.b, b);
    if ref.b == b {
      DomAntisymmetric(f.g, p.b, b);
    }
  }

  /** All PHIs of the set that dominate b hold the value of ref. */
  ghost predicate AllEqual(f: Func, s: set<Ref>, ref: Ref, b: nat, e: Env) {
    forall p :: p in s && Dom(f.g, p.b, b) ==> e.refs(p) == e.refs(ref)
  }

  /** Executing a block keeps the equality. */
  lemma EqualInside(f: Func, o: Oracle, s: set<Ref>, ref: Ref, b: nat, k: nat, e: Env, log: seq<Event>)
    requires Cycle(f, s, ref) && b < |f.blocks| && k <= |f.blocks[b].insts| && Reachable(f.g, b)
    requires AllEqual(f, s, ref, b, e) && Exec(f, o, b, k, e, log).Pt?
    ensures AllEqual(f, s, ref, b, Exec(f, o, b, k, e, log).e)
  {
    hide DefsDominateUses, ClosedUnder, Exec, Dom;
    forall p | p in s && Dom(f.g, p.b, b)
      ensures Exec(f, o, b, k, e, log).e.refs(p) == Exec(f, o, b, k, e, log).e.refs(ref)
    {
      RefNotBelow(f, s, ref, p, b);
      PhiNotInEntry(f, s, ref, p);
      ExecKeepsRefs(f, o, b, k, e, log, p);
      ExecKeepsRefs(f, o, b, k, e, log, ref);
    }
  }

  /** Taking an edge keeps the equality. */
  lemma EqualAcross(f: Func, s: set<Ref>, ref: Ref, b: nat, c: nat, e: Env)
    requires Cycle(f, s, ref) && b < |f.blocks| && c < |f.blocks| && Reachable(f.g, b) && Edge(f.g, b, c)
    requires AllEqual(f, s, ref, b, e)
    ensures AllEqual(f, s, ref, c, EnterPhis(f.blocks[c].phis, b, c, e))
  {
    hide DefsDominateUses, ClosedUnder, Dom;
    var e' := EnterPhis(f.blocks[c].phis, b, c, e);
    EdgeReachable(f.g, b, c);
    forall p | p in s && Dom(f.g, p.b, c)
      ensures e'.refs(p) == e'.refs(ref)
    {
      RefNotBelow(f, s, ref, p, c);
      PhiNotInEntry(f, s, ref, p);
      if p.b == c {
        OperandFor(f, s, ref, p, b);
        var a := Incoming(f, p)[b];
        if a.r != ref {
          DomReflexive(f.g, b);
          assert Dom(f.g, a.r.b, b);
        }
      } else {
        DomBeforeEdge(f.g, p.b, b, c);
      }
    }
  }

  /** At every block of every run, a PHI of the set that dominates the block equals ref. */
  lemma {:induction false} CycleEqualsOp(f: Func, o: Oracle, s: set<Ref>, ref: Ref, n: nat)
    requires Cycle(f, s, ref)
    ensures var t := Steps(f, o, n);
      t.At? ==> t.b < |f.blocks| && Reachable(f.g, t.b) && AllEqual(f, s, ref, t.b, t.e)
  {
    hide DefsDominateUses, ClosedUnder, AllEqual, Step;
    if n == 0 {
      EntryReachable(f.g);
      EqualAtStart(f, o, s, ref);
    } else if Steps(f, o, n).At? {
      CycleEqualsOp(f, o, s, ref, n - 1);
      StepTaken(f, o, n - 1);
      var u, t := Steps(f, o, n - 1), Steps(f, o, n);
      EdgeReachable(f.g, u.b, t.b);
      EqualInside(f, o, s, ref, u.b, |f.blocks[u.b].insts|, u.e, u.log);
      EqualAcross(f, s, ref, u.b, t.b, AtEnd(f, o, u).e);
    }
  }

  lemma EqualAtStart(f: Func, o: Oracle, s: set<Ref>, ref: Ref)
    requires Cycle(f, s, ref)
    ensures AllEqual(f, s, ref, 0, Steps(f, o, 0).e)
  {
  }

  /** A reachable PHI never collapses onto itself. */
  lemma NeverEqualToItself(f: Func, s: set<Ref>, phi: Ref)
    requires f.Valid() && DefsDominateUses(f) && f.blocks[0].phis == map[]
    requires IsPhi(f, phi) && phi in s && Reachable(f.g, phi.b)
    ensures !ClosedUnder(f, s, Use(phi))
  {
    if ClosedUnder(f, s, Use(phi)) {
      RefDominates(f, s, phi, phi);
    }
  }

  // ---------------------------------------------------------------- replacing the PHI

  function Subst(a: Operand, phi: Ref, op: Operand): Operand {
    if a == Use(phi) then op else a
  }

  function SubstInst(inst: Inst, phi: Ref, op: Operand): Inst {
    inst.(args := seq(|inst.args|, j requires 0 <= j < |inst.args| => Subst(inst.args[j], phi, op)))
  }

  function SubstBlock(block: Block, b: nat, phi: Ref, op: Operand): Block {
    Block(
      map id | id in block.phis && Phi(b, id) != phi :: map c | c in block.phis[id] ::
        Subst(block.phis[id][c], phi, op),
      seq(|block.insts|, k requires 0 <= k < |block.insts| => SubstInst(block.insts[k], phi, op)))
  }

  /** All uses of phi are replaced by op and phi is erased. */
  function Replace(f: Func, phi: Ref, op: Operand): (g: Func)
    ensures g.g == f.g && |g.blocks| == |f.blocks|
    ensures f.Valid() ==> g.Valid()
  {
    Func(f.g, seq(|f.blocks|, b requires 0 <= b < |f.blocks| => SubstBlock(f.blocks[b], b, phi, op)))
  }

  /** A use of phi reads what op reads, in the two environments. */
  lemma SameRead(f: Func, s: set<Ref>, phi: Ref, ref: Ref, a: Operand, b: nat, k: nat, e: Env, e': Env)
    requires Cycle(f, s, ref) && phi in s && Reachable(f.g, b) && OperandOk(f, a, b, k)
    requires AllEqual(f, s, ref, b, e) && AgreeBut({phi}, e, e')
    ensures Read(Subst(a, phi, Use(ref)), e') == Read(a, e)
  {
    if a == Use(phi) {
      DomReflexive(f.g, b);
      DomIsReachable(f.g, phi.b, b);
      RefDominates(f, s, ref, phi);
    }
  }

  lemma {:induction false} ReplacedBlock(f: Func, o: Oracle, s: set<Ref>, phi: Ref, ref: Ref, b: nat, k: nat, e: Env,
                                         e': Env, log: seq<Event>)
    requires Cycle(f, s, ref) && phi in s && b < |f.blocks| && Reachable(f.g, b) && k <= |f.blocks[b].insts|
    requires AllEqual(f, s, ref, b, e) && AgreeBut({phi}, e, e')
    ensures var g := Replace(f, phi, Use(ref)); k <= |g.blocks[b].insts|
    ensures PointsAgree({phi}, Exec(f, o, b, k, e, log), Exec(Replace(f, phi, Use(ref)), o, b, k, e', log))
  {
    hide ClosedUnder, AllEqual, Cycle, ExecInst, Dom;
    if k > 0 {
      ReplacedBlock(f, o, s, phi, ref, b, k - 1, e, e', log);
      var g := Replace(f, phi, Use(ref));
      var p, p' := Exec(f, o, b, k - 1, e, log), Exec(g, o, b, k - 1, e', log);
      if p.Pt? {
        EqualInside(f, o, s, ref, b, k - 1, e, log);
        ReplacedInst(f, o, s, phi, ref, b, k - 1, p.e, p'.e, p.log);
      }
    }
  }

  lemma ReplacedInst(f: Func, o: Oracle, s: set<Ref>, phi: Ref, ref: Ref, b: nat, k: nat, e: Env, e': Env,
                     log: seq<Event>)
    requires Cycle(f, s, ref) && phi in s && b < |f.blocks| && Reachable(f.g, b) && k < |f.blocks[b].insts|
    requires AllEqual(f, s, ref, b, e) && AgreeBut({phi}, e, e')
    ensures var inst := f.blocks[b].insts[k];
      PointsAgree({phi}, ExecInst(b, k, inst, o, e, log), ExecInst(b, k, SubstInst(inst, phi, Use(ref)), o, e', log))
  {
    hide ClosedUnder, AllEqual;
    var inst := f.blocks[b].insts[k];
    var inst' := SubstInst(inst, phi, Use(ref));
    assert BlockOk(f, b) && InstOk(f, b, k);
    forall j | 0 <= j < |inst.args|
      ensures Read(inst'.args[j], e') == Read(inst.args[j], e)
    {
      assert OperandOk(f, inst.args[j], b, k);
      SameRead(f, s, phi, ref, inst.args[j], b, k, e, e');
    }
    ExecInstAgrees(b, k, inst, inst', o, {phi}, e, e', log);
  }

  lemma ReplacedPhis(f: Func, s: set<Ref>, phi: Ref, ref: Ref, b: nat, c: nat, e: Env, e': Env)
    requires Cycle(f, s, ref) && phi in s && b < |f.blocks| && c < |f.blocks| && Reachable(f.g, b) && Edge(f.g, b, c)
    requires AllEqual(f, s, ref, b, e) && AgreeBut({phi}, e, e')
    ensures AgreeBut({phi}, EnterPhis(f.blocks[c].phis, b, c, e),
      EnterPhis(Replace(f, phi, Use(ref)).blocks[c].phis, b, c, e'))
  {
    hide ClosedUnder, AllEqual;
    var g := Replace(f, phi, Use(ref));
    var x, x' := EnterPhis(f.blocks[c].phis, b, c, e), EnterPhis(g.blocks[c].phis, b, c, e');
    assert BlockOk(f, b);
    var i :| 0 <= i < |f.g.succs[b]| && f.g.succs[b][i] == c;
    assert EdgeOk(f, b, f.g.succs[b][i]);
    forall r | r !in {phi}
      ensures x.refs(r) == x'.refs(r)
    {
      if r.Phi? && r.b == c && r.id in f.blocks[c].phis {
        assert PhiOk(f, b, c, r.id);
        var a := f.blocks[c].phis[r.id][b];
        SameRead(f, s, phi, ref, a, b, |f.blocks[b].insts|, e, e');
      }
    }
  }

  /** Replacing the PHI by op changes no run. */
  lemma {:induction false} ReplaceKeepsRuns(f: Func, o: Oracle, s: set<Ref>, phi: Ref, ref: Ref, n: nat)
    requires Cycle(f, s, ref) && phi in s
    ensures var g := Replace(f, phi, Use(ref));
      Seen(Steps(g, o, n)) == Seen(Steps(f, o, n)) &&
        (Steps(f, o, n).At? ==> AgreeBut({phi}, Steps(f, o, n).e, Steps(g, o, n).e))
  {
    hide ClosedUnder, AllEqual, Replace, DefsDominateUses, Reachable, Exec, Leave, Dom;
    if n > 0 {
      ReplaceKeepsRuns(f, o, s, phi, ref, n - 1);
      CycleEqualsOp(f, o, s, ref, n - 1);
      var t, t' := Steps(f, o, n - 1), Steps(Replace(f, phi, Use(ref)), o, n - 1);
      if t.At? {
        ReplacedStep(f, o, s, phi, ref, t, t');
      }
    }
  }

  lemma ReplacedStep(f: Func, o: Oracle, s: set<Ref>, phi: Ref, ref: Ref, t: State, t': State)
    requires Cycle(f, s, ref) && phi in s
    requires t.At? && t'.At? && t.b == t'.b < |f.blocks| && t.log == t'.log && AgreeBut({phi}, t.e, t'.e)
    requires Reachable(f.g, t.b) && AllEqual(f, s, ref, t.b, t.e)
    ensures var g := Replace(f, phi, Use(ref));
      && Seen(Step(g, o, t')) == Seen(Step(f, o, t))
      && (Step(f, o, t).At? ==> AgreeBut({phi}, Step(f, o, t).e, Step(g, o, t').e))
  {
    hide ClosedUnder, AllEqual, DefsDominateUses, Exec, EnterPhis, Dom;
    var g := Replace(f, phi, Use(ref));
    var k := |f.blocks[t.b].insts|;
    ReplacedBlock(f, o, s, phi, ref, t.b, k, t.e, t'.e, t.log);
    var p := Exec(f, o, t.b, k, t.e, t.log);
    var u := Step(f, o, t);
    assert |g.blocks[t.b].insts| == k && g.blocks[t.b].insts[k - 1].op == f.blocks[t.b].insts[k - 1].op;
    if u.At? {
      EqualInside(f, o, s, ref, t.b, k, t.e, t.log);
      ReplacedPhis(f, s, phi, ref, t.b, u.b, p.e, Exec(g, o, t.b, k, t'.e, t.log).e);
    }
  }

  /** Nor does it change an operand value that an instruction reads. */
  lemma ReplaceKeepsReads(f: Func, o: Oracle, s: set<Ref>, phi: Ref, ref: Ref, n: nat, k: nat)
    requires Cycle(f, s, ref) && phi in s
    ensures ReadsAlike(f, Replace(f, phi, Use(ref)), o, n, k)
  {
    hide ClosedUnder, AllEqual, DefsDominateUses, Reachable, Replace, Steps, Exec;
    ReplaceKeepsRuns(f, o, s, phi, ref, n);
    CycleEqualsOp(f, o, s, ref, n);
    var t, t' := Steps(f, o, n), Steps(Replace(f, phi, Use(ref)), o, n);
    if t.At? && t.b < |f.blocks| && k <= |f.blocks[t.b].insts| {
      ReplacedBlock(f, o, s, phi, ref, t.b, k, t.e, t'.e, t.log);
    }
  }

  lemma AvailableInstead(f: Func, s: set<Ref>, phi: Ref, ref: Ref, a: Operand, b: nat, k: nat)
    requires Cycle(f, s, ref) && phi in s && Reachable(f.g, phi.b) && Exists(f, InstOf(ref))
    requires b < |f.blocks| && Reachable(f.g, b) && OperandOk(f, a, b, k)
    ensures OperandOk(Replace(f, phi, Use(ref)), Subst(a, phi, Use(ref)), b, k)
  {
    RefDominates(f, s, ref, phi);
    if a == Use(phi) {
      DomReflexive(f.g, b);
      RefNotBelow(f, s, ref, phi, b);
    }
  }

  /** ref exists: some run reaches phi, and the values flowing into it come from ref. */
  lemma {:induction false} RefExists(f: Func, s: set<Ref>, phi: Ref, ref: Ref, q: seq<nat>)
    requires Cycle(f, s, ref) && phi in s && RunTo(f.g, q, phi.b)
    ensures Exists(f, InstOf(ref))
    decreases |q|
  {
    hide DefsDominateUses, ClosedUnder;
    PhiNotInEntry(f, s, ref, phi);
    var n := |q| - 2;
    assert Edge(f.g, q[n], q[n + 1]);
    PrefixIsRun(f.g, q, n);
    OperandFor(f, s, ref, phi, q[n]);
    var a := Incoming(f, phi)[q[n]];
    if a.r in s && a.r != ref {
      DomReflexive(f.g, q[n]);
      var j := First(q[..n + 1], a.r.b);
      PrefixIsRun(f.g, q, j);
      RefExists(f, s, a.r, ref, q[..j + 1]);
    }
  }

  lemma ReplaceKeepsDominance(f: Func, s: set<Ref>, phi: Ref, ref: Ref)
    requires Cycle(f, s, ref) && phi in s && Reachable(f.g, phi.b)
    ensures DefsDominateUses(Replace(f, phi, Use(ref)))
  {
    hide ClosedUnder, Dom;
    var q :| RunTo(f.g, q, phi.b);
    RefExists(f, s, phi, ref, q);
    var g := Replace(f, phi, Use(ref));
    forall b: nat | b < |f.blocks| && Reachable(f.g, b)
      ensures BlockOk(g, b)
    {
      assert BlockOk(f, b);
      forall k | 0 <= k < |f.blocks[b].insts|
        ensures InstOk(g, b, k)
      {
        assert InstOk(f, b, k);
        forall j | 0 <= j < |f.blocks[b].insts[k].args|
          ensures OperandOk(g, g.blocks[b].insts[k].args[j], b, k)
        {
          AvailableInstead(f, s, phi, ref, f.blocks[b].insts[k].args[j], b, k);
        }
      }
      forall i | 0 <= i < |f.g.succs[b]|
        ensures EdgeOk(g, b, f.g.succs[b][i])
      {
        var c := f.g.succs[b][i];
        assert EdgeOk(f, b, c);
        forall id | id in g.blocks[c].phis
          ensures PhiOk(g, b, c, id)
        {
          assert PhiOk(f, b, c, id);
          AvailableInstead(f, s, phi, ref, f.blocks[c].phis[id][b], b, |f.blocks[b].insts|);
        }
      }
    }
  }

  // ---------------------------------------------------------------- the pass

  /** A verified function whose PHI operands are references to existing definitions. */
  ghost predicate Collapsible(f: Func) {
    && f.Valid() && DefsDominateUses(f) && f.blocks[0].phis == map[]
    && PhisExist(f)
    && forall p, c :: IsPhi(f, p) && c in Incoming(f, p) ==> Incoming(f, p)[c].Use?
  }

  lemma ReplaceKeepsCollapsible(f: Func, s: set<Ref>, phi: Ref, ref: Ref)
    requires Collapsible(f) && ClosedUnder(f, s, Use(ref)) && phi in s && IsPhi(f, phi) && Reachable(f.g, phi.b)
    requires ref.Phi? ==> IsPhi(f, ref)
    ensures Collapsible(Replace(f, phi, Use(ref)))
  {
    ReplaceKeepsDominance(f, s, phi, ref);
    RefDominates(f, s, ref, phi);
    var g := Replace(f, phi, Use(ref));
    forall p | IsPhi(g, p)
      ensures IsPhi(f, p) && p != phi && Incoming(g, p).Keys == Incoming(f, p).Keys
      ensures forall c :: c in Incoming(g, p) ==> Incoming(g, p)[c] == Subst(Incoming(f, p)[c], phi, Use(ref))
    {
      assert g.blocks[p.b] == SubstBlock(f.blocks[p.b], p.b, phi, Use(ref));
    }
    assert g.blocks[0] == SubstBlock(f.blocks[0], 0, phi, Use(ref));
    forall p | IsPhi(f, p) && p != phi
      ensures IsPhi(g, p)
    {
      assert g.blocks[p.b] == SubstBlock(f.blocks[p.b], p.b, phi, Use(ref));
    }
  }

  /** What one PHI becomes: nothing changes when it equals none of its operands, and otherwise
      one of them takes its place. */
  ghost predicate Collapsed(f: Func, phi: Ref, g: Func) {
    if !IsPhi(f, phi) then g == f else
      && (g == f || exists c :: c in Incoming(f, phi) && g == Replace(f, phi, Incoming(f, phi)[c]))
      && (g == f <==> forall s, c :: c in Incoming(f, phi) && ClosedUnder(f, s, Incoming(f, phi)[c]) ==> phi !in s)
  }

  /** Tries the operands of one PHI in turn; on success its uses become uses of the operand. */
  method CollapsePhi(f: Func, phi: Ref) returns (g: Func)
    requires Collapsible(f) && IsPhi(f, phi) && Reachable(f.g, phi.b)
    ensures Collapsible(g) && g.g == f.g && |g.blocks| == |f.blocks| && SameRuns(f, g) && SameReads(f, g)
    ensures Collapsed(f, phi, g) && SameOps(f, g)
    ensures g != f ==> AllPhis(g) == AllPhis(f) - {phi}
  {
    var rest := Incoming(f, phi).Keys;
    while rest != {}
      invariant rest <= Incoming(f, phi).Keys
      invariant forall s, c :: c in Incoming(f, phi).Keys - rest && ClosedUnder(f, s, Incoming(f, phi)[c]) ==> phi !in s
      decreases rest
    {
      hide ClosedUnder, Collapsible, Replace, SameReads;
      var c: nat :| c in rest;
      rest := rest - {c};
      var op := Incoming(f, phi)[c];
      CollapsibleFacts(f, phi, c);
      var eq, s := PhiEqualTo(f, phi, op);
      if eq {
        ReplaceKeepsCollapsible(f, s, phi, op.r);
        ReplaceSameRuns(f, s, phi, op.r);
        Gone(f, phi, op);
        ReplaceKeepsOps(f, phi, op.r);
        return Replace(f, phi, op);
      }
    }
    SameReadsRefl(f);
    SameOpsRefl(f);
    return f;
  }

  lemma CollapsibleFacts(f: Func, phi: Ref, c: nat)
    requires Collapsible(f) && IsPhi(f, phi) && c in Incoming(f, phi)
    ensures PhisExist(f) && Incoming(f, phi)[c].Use? && (Incoming(f, phi)[c].r.Phi? ==> IsPhi(f, Incoming(f, phi)[c].r))
    ensures f.Valid()
  {
  }

  lemma Gone(f: Func, phi: Ref, op: Operand)
    requires IsPhi(f, phi)
    ensures Replace(f, phi, op) != f && AllPhis(Replace(f, phi, op)) == AllPhis(f) - {phi}
  {
    var g := Replace(f, phi, op);
    assert g.blocks[phi.b] == SubstBlock(f.blocks[phi.b], phi.b, phi, op);
    forall r: Ref
      ensures r in AllPhis(g) <==> r in AllPhis(f) && r != phi
    {
      if r.b < |f.blocks| {
        assert g.blocks[r.b] == SubstBlock(f.blocks[r.b], r.b, phi, op);
      }
    }
    assert phi in AllPhis(f) && phi !in AllPhis(g);
  }

  lemma ReplaceKeepsOps(f: Func, phi: Ref, ref: Ref)
    ensures SameOps(f, Replace(f, phi, Use(ref)))
  {
    hide Reachable;
    var g := Replace(f, phi, Use(ref));
    forall b: nat | b < |f.blocks|
      ensures g.blocks[b] == SubstBlock(f.blocks[b], b, phi, Use(ref))
    {
    }
  }

  lemma ReplaceSameRuns(f: Func, s: set<Ref>, phi: Ref, ref: Ref)
    requires Collapsible(f) && ClosedUnder(f, s, Use(ref)) && phi in s
    ensures SameRuns(f, Replace(f, phi, Use(ref))) && SameReads(f, Replace(f, phi, Use(ref)))
  {
    hide Steps, Replace, ReadsAlike, ClosedUnder;
    forall o: Oracle, n: nat
      ensures Seen(Steps(Replace(f, phi, Use(ref)), o, n)) == Seen(Steps(f, o, n))
    {
      ReplaceKeepsRuns(f, o, s, phi, ref, n);
    }
    forall o: Oracle, n: nat, k: nat
      ensures ReadsAlike(f, Replace(f, phi, Use(ref)), o, n, k)
    {
      ReplaceKeepsReads(f, o, s, phi, ref, n, k);
    }
  }

  /** Collapses PHIs of the listed (reachable) blocks, each time in the current function, which
      trace records. */
  method CollapsePhis(f: Func, phis: seq<Ref>) returns (g: Func, ghost trace: seq<Func>)
    requires Collapsible(f)
    requires forall i :: 0 <= i < |phis| ==> phis[i].b < |f.blocks| && Reachable(f.g, phis[i].b)
    ensures Collapsible(g) && g.g == f.g && SameRuns(f, g) && SameReads(f, g) && SameOps(f, g)
    ensures |trace| == |phis| + 1 && trace[0] == f && trace[|phis|] == g
    ensures forall i :: 0 <= i < |phis| ==> Collapsed(trace[i], phis[i], trace[i + 1])
  {
    hide Collapsible, SameRuns, SameReads, Collapsed, SameOps;
    SameOpsRefl(f);
    g, trace := f, [f];
    CollapsibleValid(f);
    SameRunsRefl(f);
    SameReadsRefl(f);
    for i := 0 to |phis|
      invariant Collapsible(g) && g.g == f.g && g.Valid() && |g.blocks| == |f.blocks|
      invariant SameRuns(f, g) && SameReads(f, g) && SameOps(f, g)
      invariant |trace| == i + 1 && trace[0] == f && trace[i] == g
      invariant forall j :: 0 <= j < i ==> Collapsed(trace[j], phis[j], trace[j + 1])
    {
      var h := g;
      if IsPhi(g, phis[i]) {
        h := CollapsePhi(g, phis[i]);
        CollapsibleValid(h);
        SameRunsTrans(f, g, h);
        SameReadsTrans(f, g, h);
        SameOpsTrans(f, g, h);
      } else {
        NotCollapsed(g, phis[i]);
      }
      g, trace := h, trace + [h];
    }
  }

  lemma NotCollapsed(f: Func, phi: Ref)
    requires !IsPhi(f, phi)
    ensures Collapsed(f, phi, f)
  {
  }

  lemma CollapsibleValid(f: Func)
    requires Collapsible(f)
    ensures f.Valid()
  {
  }
}
