/** Finding the accesses to a stack object (FindUses and the search over a function in
    passes/mem_to_reg.cpp). */
module CellFind {
  import opened DeadPhis
  import opened Options
  import opened Ssa
  import opened Words

  /** A stack object; align is the logarithm of its alignment, if it has one. */
  datatype Object = Object(index: nat, align: Option<nat>)

  // ---------------------------------------------------------------- derived addresses

  predicate InFunc(f: Func, u: User) {
    u.ByInst? && u.b < |f.blocks| && u.k < |f.blocks[u.b].insts|
  }

  function UserInst(f: Func, u: User): Inst
    requires InFunc(f, u)
  {
    f.blocks[u.b].insts[u.k]
  }

  function ResultOf(u: User): Ref
    requires u.ByInst?
  {
    Res(u.b, u.k, 0)
  }

  function DefOf(r: Ref): User
    requires r.Res?
  {
    ByInst(r.b, r.k)
  }

  /** The integer an operand holds, if it is the result of a move of one. */
  function ConstantOf(f: Func, a: Operand): Option<int> {
    if a.Use? && a.r.Res? && a.r.i == 0 && InFunc(f, DefOf(a.r)) then
      var inst := UserInst(f, DefOf(a.r));
      if inst.op == Mov(false) && |inst.args| == 1 && inst.args[0].Imm? then Some(inst.args[0].c) else None
    else None
  }

  function OtherOperand(inst: Inst, r: Ref): Operand
    requires |inst.args| == 2
  {
    if inst.args[1] == Use(r) then inst.args[0] else inst.args[1]
  }

  /** The offset of the result of a user, given that its operand r is an address with offset o. */
  function StepTo(f: Func, align: Option<nat>, u: User, r: Ref, o: int): Option<int> {
    if !InFunc(f, u) then None else
      var inst := UserInst(f, u);
      match inst.op
      case Mov(_) => if inst.args == [Use(r)] then Some(o) else None
      case Add =>
        if |inst.args| != 2 then None else
          (match ConstantOf(f, OtherOperand(inst, r))
           case Some(c) => Some(o + c)
           case None => None)
      case Or =>
        if |inst.args| != 2 then None else
          (match (ConstantOf(f, OtherOperand(inst, r)), align)
           case (Some(c), Some(k)) => if 0 <= c < Pow2(k) then Some(BitOr(o, c)) else None
           case _ => None)
      case Sub =>
        if |inst.args| != 2 || inst.args[1] == Use(r) then None else
          (match ConstantOf(f, inst.args[1])
           case Some(c) => Some(o - c)
           case None => None)
      case _ => None
  }

  /** A load from address r, or a store to it of another value. */
  predicate Accesses(f: Func, u: User, r: Ref) {
    && InFunc(f, u)
    && var inst := UserInst(f, u);
       match inst.op
       case Load(_) => inst.args == [Use(r)]
       case Store(_) => |inst.args| == 2 && inst.args[0] == Use(r) && inst.args[1] != Use(r)
       case _ => false
  }

  /** The type of the value an access loads or stores. */
  function TypeOf(f: Func, u: User): nat {
    if !InFunc(f, u) then 0 else
      match UserInst(f, u).op
      case Load(ty) => ty
      case Store(ty) => ty
      case _ => 0
  }

  /** The pass can follow the use of address r by u. */
  predicate Trackable(f: Func, align: Option<nat>, u: User, r: Ref) {
    Accesses(f, u, r) || StepTo(f, align, u, r, 0).Some?
  }

  /** The operand is the result of moving an integer. */
  predicate HasConstant(f: Func, a: Operand, c: int) {
    a.Use? && a.r.Res? && a.r.i == 0 && InFunc(f, DefOf(a.r)) && UserInst(f, DefOf(a.r)).op == Mov(false)
    && UserInst(f, DefOf(a.r)).args == [Imm(c)]
  }

  /** r and another operand that holds a constant, in either order. */
  predicate WithConstant(f: Func, args: seq<Operand>, r: Ref, c: int) {
    && |args| == 2
    && ((args[0] == Use(r) && HasConstant(f, args[1], c)) || (args[1] == Use(r) && HasConstant(f, args[0], c)))
  }

  /** Instruction u computes the address with offset off from the address r with offset o: it moves
      it, adds a constant, subtracts one, or or-s bits below the alignment into it. */
  ghost predicate OffsetsBy(f: Func, align: Option<nat>, u: User, r: Ref, o: int, off: int) {
    && InFunc(f, u)
    && var inst := UserInst(f, u);
       || (inst.op.Mov? && inst.args == [Use(r)] && off == o)
       || (inst.op.Add? && exists c: int :: WithConstant(f, inst.args, r, c) && off == o + c)
       || (inst.op.Sub? && inst.args != [] && inst.args[0] == Use(r) && exists c: int ::
             WithConstant(f, inst.args, r, c) && inst.args[1] != Use(r) && off == o - c)
       || (inst.op.Or? && align.Some? && exists c: int ::
             WithConstant(f, inst.args, r, c) && 0 <= c < Pow2(align.value) && off == BitOr(o, c))
  }

  /** Instruction u loads a value of type ty from address r, or stores one there. */
  ghost predicate LoadsOrStores(f: Func, u: User, r: Ref, ty: nat) {
    && InFunc(f, u)
    && var inst := UserInst(f, u);
       || (inst.op == Load(ty) && inst.args == [Use(r)])
       || (inst.op == Store(ty) && exists a :: a != Use(r) && inst.args == [Use(r), a])
  }

  /** What one step of the search computes. */
  lemma StepExact(f: Func, align: Option<nat>, u: User, r: Ref, o: int, off: int)
    requires u in Users(f, r)
    ensures StepTo(f, align, u, r, o) == Some(off) <==> OffsetsBy(f, align, u, r, o, off)
  {
    hide BitOr, Pow2;
    if InFunc(f, u) && |UserInst(f, u).args| == 2 {
      var args := UserInst(f, u).args;
      forall c: int
        ensures WithConstant(f, args, r, c) <==> ConstantOf(f, OtherOperand(UserInst(f, u), r)) == Some(c)
      {
        ConstantExact(f, OtherOperand(UserInst(f, u), r), c);
      }
      ConstantExact(f, args[1], 0);
    }
  }

  lemma ConstantExact(f: Func, a: Operand, c: int)
    ensures ConstantOf(f, a) == Some(c) <==> HasConstant(f, a, c)
  {
  }

  /** What counts as an access. */
  lemma AccessExact(f: Func, u: User, r: Ref, ty: nat)
    ensures AccessOf(f, u, r, ty) <==> LoadsOrStores(f, u, r, ty)
  {
    if InFunc(f, u) && AccessOf(f, u, r, ty) && UserInst(f, u).op.Store? {
      assert UserInst(f, u).args == [Use(r), UserInst(f, u).args[1]];
    }
  }

  /** x is computed in one step from the address y, at offset o, and has offset off. */
  ghost predicate IsStep(f: Func, align: Option<nat>, y: Ref, x: Ref, o: int, off: int) {
    x.Res? && x.i == 0 && DefOf(x) in Users(f, y) && StepTo(f, align, DefOf(x), y, o) == Some(off)
  }

  /** A chain of steps that starts at offset off0 and ends at off. */
  ghost predicate Trace(f: Func, align: Option<nat>, p: seq<Ref>, off0: int, off: int)
    decreases |p|
  {
    && |p| > 0
    && if |p| == 1 then off == off0
       else
         var y, x, q := p[|p| - 2], p[|p| - 1], p[..|p| - 1];
         exists o: int :: IsStep(f, align, y, x, o, off) && Trace(f, align, q, off0, o)
  }

  ghost predicate IsFrame(f: Func, obj: Object, fr: Ref, off0: int) {
    fr.Res? && fr.i == 0 && InFunc(f, DefOf(fr)) && UserInst(f, DefOf(fr)).op == Op.Frame(obj.index, off0)
  }

  /** r is computed from the frame address fr, which has offset off0, and has offset off. */
  ghost predicate DerivedFrom(f: Func, align: Option<nat>, fr: Ref, off0: int, r: Ref, off: int) {
    exists p :: TraceTo(f, align, fr, off0, r, off, p)
  }

  ghost predicate TraceTo(f: Func, align: Option<nat>, fr: Ref, off0: int, r: Ref, off: int, p: seq<Ref>) {
    Trace(f, align, p, off0, off) && p[0] == fr && p[|p| - 1] == r
  }

  /** An address in the object, with its offset. */
  ghost predicate Derived(f: Func, obj: Object, r: Ref, off: int) {
    exists fr, off0: int :: IsFrame(f, obj, fr, off0) && DerivedFrom(f, obj.align, fr, off0, r, off)
  }

  /** The address reaches an instruction that the pass cannot follow. */
  ghost predicate EscapesFrom(f: Func, align: Option<nat>, fr: Ref, off0: int) {
    exists r, off: int, u ::
      DerivedFrom(f, align, fr, off0, r, off) && u in Users(f, r) && !Trackable(f, align, u, r)
  }

  ghost predicate Escapes(f: Func, obj: Object) {
    exists r, off: int, u :: Derived(f, obj, r, off) && u in Users(f, r) && !Trackable(f, obj.align, u, r)
  }

  /** u accesses the object through an address derived from fr. */
  ghost predicate IsUseFrom(f: Func, align: Option<nat>, fr: Ref, off0: int, u: User, off: int, ty: nat) {
    exists r :: DerivedFrom(f, align, fr, off0, r, off) && AccessOf(f, u, r, ty)
  }

  ghost predicate AccessOf(f: Func, u: User, r: Ref, ty: nat) {
    u in Users(f, r) && Accesses(f, u, r) && ty == TypeOf(f, u)
  }

  ghost predicate IsUse(f: Func, obj: Object, u: User, off: int, ty: nat) {
    exists r :: Derived(f, obj, r, off) && AccessOf(f, u, r, ty)
  }

  // ---------------------------------------------------------------- derived addresses are unique

  lemma StartsAtFrame(f: Func, align: Option<nat>, fr: Ref, off0: int)
    ensures DerivedFrom(f, align, fr, off0, fr, off0)
  {
    assert TraceTo(f, align, fr, off0, fr, off0, [fr]);
  }

  lemma DerivedStep(f: Func, align: Option<nat>, fr: Ref, off0: int, y: Ref, x: Ref, o: int, off: int)
    requires DerivedFrom(f, align, fr, off0, y, o) && IsStep(f, align, y, x, o, off)
    ensures DerivedFrom(f, align, fr, off0, x, off)
  {
    hide IsStep;
    var p :| TraceTo(f, align, fr, off0, y, o, p);
    var q := p + [x];
    assert q[..|q| - 1] == p && q[|q| - 2] == y;
    assert Trace(f, align, q, off0, off);
    assert TraceTo(f, align, fr, off0, x, off, p + [x]);
  }

  /** The last step of a chain. */
  lemma LastStep(f: Func, align: Option<nat>, fr: Ref, off0: int, r: Ref, off: int, p: seq<Ref>)
      returns (y: Ref, o: int)
    requires TraceTo(f, align, fr, off0, r, off, p) && |p| > 1
    ensures TraceTo(f, align, fr, off0, y, o, p[..|p| - 1]) && IsStep(f, align, y, r, o, off)
    ensures DerivedFrom(f, align, fr, off0, y, o)
  {
    hide IsStep;
    y := p[|p| - 2];
    o :| Trace(f, align, p[..|p| - 1], off0, o) && IsStep(f, align, y, r, o, off);
  }

  /** An address is not a constant. */
  lemma NotConstant(f: Func, obj: Object, fr: Ref, off0: int, r: Ref, off: int)
    requires IsFrame(f, obj, fr, off0) && DerivedFrom(f, obj.align, fr, off0, r, off)
    ensures ConstantOf(f, Use(r)).None?
  {
    var p :| TraceTo(f, obj.align, fr, off0, r, off, p);
    if |p| > 1 {
      var y, o := LastStep(f, obj.align, fr, off0, r, off, p);
    }
  }

  /** A user that can be followed from two operands, neither of them constant, has only one. */
  lemma OneOperand(f: Func, align: Option<nat>, u: User, y: Ref, z: Ref)
    requires u in Users(f, y) && u in Users(f, z) && StepTo(f, align, u, y, 0).Some? && StepTo(f, align, u, z, 0).Some?
    requires ConstantOf(f, Use(y)).None? && ConstantOf(f, Use(z)).None?
    ensures y == z
  {
    hide Pow2, BitOr;
    var inst := UserInst(f, u);
    assert IsUser(f, y, u) && IsUser(f, z, u);
    assert Use(y) in inst.args && Use(z) in inst.args;
  }

  /** Whether a use can be followed does not depend on the offset. */
  lemma StepAnyOffset(f: Func, align: Option<nat>, u: User, r: Ref, o: int)
    ensures StepTo(f, align, u, r, o).Some? <==> StepTo(f, align, u, r, 0).Some?
    ensures StepTo(f, align, u, r, o).Some? ==> !Accesses(f, u, r)
  {
  }

  /** No step leads to a frame address. */
  lemma NoStepToFrame(f: Func, obj: Object, fr: Ref, off0: int, align: Option<nat>, y: Ref, o: int)
    requires IsFrame(f, obj, fr, off0)
    ensures StepTo(f, align, DefOf(fr), y, o).None?
  {
  }

  /** An address derives from one frame address and has one offset. */
  lemma {:induction false} TraceUnique(f: Func, obj: Object, fr: Ref, off0: int, p: seq<Ref>, gr: Ref, off1: int,
                                       q: seq<Ref>,
                                       r: Ref, o: int, o': int)
    requires IsFrame(f, obj, fr, off0) && IsFrame(f, obj, gr, off1)
    requires TraceTo(f, obj.align, fr, off0, r, o, p) && TraceTo(f, obj.align, gr, off1, r, o', q)
    ensures fr == gr && o == o'
    decreases |p|
  {
    hide StepTo, ConstantOf;
    if |p| == 1 || |q| == 1 {
      if |p| > 1 {
        var y, oy := LastStep(f, obj.align, fr, off0, r, o, p);
        NoStepToFrame(f, obj, gr, off1, obj.align, y, oy);
      }
      if |q| > 1 {
        var z, oz := LastStep(f, obj.align, gr, off1, r, o', q);
        NoStepToFrame(f, obj, fr, off0, obj.align, z, oz);
      }
    } else {
      var y, oy := LastStep(f, obj.align, fr, off0, r, o, p);
      var z, oz := LastStep(f, obj.align, gr, off1, r, o', q);
      NotConstant(f, obj, fr, off0, y, oy);
      NotConstant(f, obj, gr, off1, z, oz);
      StepAnyOffset(f, obj.align, DefOf(r), y, oy);
      StepAnyOffset(f, obj.align, DefOf(r), z, oz);
      OneOperand(f, obj.align, DefOf(r), y, z);
      TraceUnique(f, obj, fr, off0, p[..|p| - 1], gr, off1, q[..|q| - 1], y, oy, oz);
    }
  }

  lemma DerivedUnique(f: Func, obj: Object, fr: Ref, off0: int, gr: Ref, off1: int, r: Ref, o: int, o': int)
    requires IsFrame(f, obj, fr, off0) && IsFrame(f, obj, gr, off1)
    requires DerivedFrom(f, obj.align, fr, off0, r, o) && DerivedFrom(f, obj.align, gr, off1, r, o')
    ensures fr == gr && o == o'
  {
    var p :| TraceTo(f, obj.align, fr, off0, r, o, p);
    var q :| TraceTo(f, obj.align, gr, off1, r, o', q);
    TraceUnique(f, obj, fr, off0, p, gr, off1, q, r, o, o');
  }

  // ---------------------------------------------------------------- the worklist

  /** A use of the address r, which has offset off, by u. */
  datatype Item = Item(u: User, r: Ref, off: int)

  /** What is searched for the uses of a frame address. */
  datatype Search = Search(f: Func, obj: Object, fr: Ref, off0: int)

  ghost predicate HasOffset(c: Search, r: Ref, off: int) {
    DerivedFrom(c.f, c.obj.align, c.fr, c.off0, r, off)
  }

  /** The users in the order of some use list. */
  method UseList(f: Func, r: Ref) returns (us: seq<User>)
    ensures forall u :: u in us <==> u in Users(f, r)
    ensures forall i, j :: 0 <= i < j < |us| ==> us[i] != us[j]
  {
    var users := Users(f, r);
    us := ListOf(users);
  }

  /** The elements of a set in some order. */
  method ListOf<T(==)>(s: set<T>) returns (xs: seq<T>)
    ensures forall x :: x in xs <==> x in s
    ensures forall i, j :: 0 <= i < j < |xs| ==> xs[i] != xs[j]
  {
    var rest := s;
    xs := [];
    while rest != {}
      invariant rest <= s
      invariant forall x :: x in xs <==> x in s - rest
      invariant forall i, j :: 0 <= i < j < |xs| ==> xs[i] != xs[j]
      decreases rest
    {
      var x :| x in rest;
      assert x !in xs;
      xs := xs + [x];
      rest := rest - {x};
    }
  }

  ghost predicate IsUseList(f: Func, r: Ref, us: seq<User>) {
    (forall u :: u in us <==> u in Users(f, r)) && forall i, j :: 0 <= i < j < |us| ==> us[i] != us[j]
  }

  /** One item for each user. */
  function Items(us: seq<User>, r: Ref, off: int): (q: seq<Item>)
    ensures |q| == |us| && forall i :: 0 <= i < |us| ==> q[i] == Item(us[i], r, off)
  {
    seq(|us|, i requires 0 <= i < |us| => Item(us[i], r, off))
  }

  /** The uses by instructions. */
  ghost function Pairs(f: Func): (s: set<(User, Ref)>)
    ensures forall u: User, r: Ref :: u.ByInst? && u in Users(f, r) ==> (u, r) in s
  {
    var s := set b: nat, k: nat, j: nat |
               b < |f.blocks| && k < |f.blocks[b].insts| && j < |f.blocks[b].insts[k].args| &&
                 f.blocks[b].insts[k].args[j].Use?
               :: (ByInst(b, k), f.blocks[b].insts[k].args[j].r);
    assert forall u: User, r: Ref :: u.ByInst? && u in Users(f, r) ==> (u, r) in s by {
      forall u: User, r: Ref | u.ByInst? && u in Users(f, r)
        ensures (u, r) in s
      {
        assert IsUser(f, r, u);
        var j :| 0 <= j < |f.blocks[u.b].insts[u.k].args| && f.blocks[u.b].insts[u.k].args[j] == Use(r);
      }
    }
    s
  }

  /** Every address met is derived, and reached by following a use that is done with. */
  ghost predicate SeenOk(c: Search, seen: map<Ref, int>, done: set<(User, Ref)>) {
    && c.fr in seen
    && forall r :: r in seen ==> HasOffset(c, r, seen[r]) && (r == c.fr || Entered(c, seen, done, r))
  }

  ghost predicate Entered(c: Search, seen: map<Ref, int>, done: set<(User, Ref)>, r: Ref) {
    r.Res? && exists y :: y in seen && (DefOf(r), y) in done && !Accesses(c.f, DefOf(r), y)
  }

  ghost predicate ItemOk(c: Search, seen: map<Ref, int>, done: set<(User, Ref)>, i: Item) {
    i.r in seen && i.off == seen[i.r] && i.u in Users(c.f, i.r) && (i.u, i.r) !in done
  }

  ghost predicate QueueOk(c: Search, seen: map<Ref, int>, done: set<(User, Ref)>, q: seq<Item>) {
    && (forall i :: 0 <= i < |q| ==> ItemOk(c, seen, done, q[i]))
    && forall i, j :: 0 <= i < j < |q| ==> q[i] != q[j]
  }

  /** Every use of every address met is queued or done with. */
  ghost predicate Covered(c: Search, seen: map<Ref, int>, done: set<(User, Ref)>, q: seq<Item>) {
    forall r, u :: r in seen && u in Users(c.f, r) ==> (u, r) in done || Item(u, r, seen[r]) in q
  }

  /** What has been done about a use: it was recorded or followed. */
  ghost predicate Handled(c: Search, found: map<User, (int, nat)>, seen: map<Ref, int>, u: User, r: Ref) {
    && r in seen && u in Users(c.f, r) && u.ByInst?
    && if Accesses(c.f, u, r) then u in found && found[u] == (seen[r], TypeOf(c.f, u))
       else ResultOf(u) in seen && StepTo(c.f, c.obj.align, u, r, seen[r]) == Some(seen[ResultOf(u)])
  }

  ghost predicate DoneOk(c: Search, found: map<User, (int, nat)>, seen: map<Ref, int>, done: set<(User, Ref)>) {
    forall u, r :: (u, r) in done ==> Handled(c, found, seen, u, r)
  }

  ghost predicate FoundOk(c: Search, found: map<User, (int, nat)>, done: set<(User, Ref)>) {
    forall u :: u in found ==> Recorded(c, done, u)
  }

  ghost predicate Recorded(c: Search, done: set<(User, Ref)>, u: User) {
    exists r :: (u, r) in done && Accesses(c.f, u, r)
  }

  ghost predicate Searching(c: Search, found: map<User, (int, nat)>, seen: map<Ref, int>, done: set<(User, Ref)>,
                            q: seq<Item>)
  {
    && IsFrame(c.f, c.obj, c.fr, c.off0)
    && SeenOk(c, seen, done) && QueueOk(c, seen, done, q) && Covered(c, seen, done, q)
    && DoneOk(c, found, seen, done) && FoundOk(c, found, done)
  }

  /** The uses of a frame address, with the offset and the type of each access; none if the
      address escapes. */
  method FindUses(f: Func, obj: Object, fr: Ref, off0: int) returns (uses: Option<map<User, (int, nat)>>)
    requires IsFrame(f, obj, fr, off0)
    ensures uses.None? <==> EscapesFrom(f, obj.align, fr, off0)
    ensures uses.Some? ==> forall u: User, off: int, ty: nat ::
      IsUseFrom(f, obj.align, fr, off0, u, off, ty) <==> u in uses.value && uses.value[u] == (off, ty)
  {
    hide Searching, Users, StepTo, Accesses, Pairs, EscapesFrom, IsUseFrom, TypeOf, IsFrame;
    ghost var c := Search(f, obj, fr, off0);
    var found: map<User, (int, nat)> := map[];
    ghost var seen: map<Ref, int>, done: set<(User, Ref)> := map[fr := off0], {};
    var us := UseList(f, fr);
    var q := Items(us, fr, off0);
    StartSearch(c, us);
    while q != []
      invariant Searching(c, found, seen, done, q)
      decreases Pairs(f) - done
    {
      var i := q[0];
      HeadOk(c, found, seen, done, q);
      q := q[1..];
      if Accesses(f, i.u, i.r) {
        Record(c, found, seen, done, [i] + q);
        found := found[i.u := (i.off, TypeOf(f, i.u))];
      } else {
        var off := StepTo(f, obj.align, i.u, i.r, i.off);
        if off.None? {
          CannotFollow(c, i);
          return None;
        }
        FollowedByInst(f, obj.align, i.u, i.r, i.off);
        us := UseList(f, ResultOf(i.u));
        Follow(c, found, seen, done, [i] + q, off.value, us);
        q := q + Items(us, ResultOf(i.u), off.value);
        seen := seen[ResultOf(i.u) := off.value];
      }
      done := done + {(i.u, i.r)};
    }
    SearchEnds(c, found, seen, done);
    uses := Some(found);
  }

  lemma StartSearch(c: Search, us: seq<User>)
    requires IsFrame(c.f, c.obj, c.fr, c.off0) && IsUseList(c.f, c.fr, us)
    ensures Searching(c, map[], map[c.fr := c.off0], {}, Items(us, c.fr, c.off0))
  {
    hide Users, IsFrame;
    StartsAtFrame(c.f, c.obj.align, c.fr, c.off0);
    var q := Items(us, c.fr, c.off0);
    forall u | u in Users(c.f, c.fr)
      ensures Item(u, c.fr, c.off0) in q
    {
      var i :| 0 <= i < |us| && us[i] == u;
      assert q[i] == Item(u, c.fr, c.off0);
    }
  }

  lemma FollowedByInst(f: Func, align: Option<nat>, u: User, r: Ref, o: int)
    ensures StepTo(f, align, u, r, o).Some? ==> u.ByInst?
    ensures Accesses(f, u, r) ==> u.ByInst?
  {
  }

  lemma HeadOk(c: Search, found: map<User, (int, nat)>, seen: map<Ref, int>, done: set<(User, Ref)>, q: seq<Item>)
    requires Searching(c, found, seen, done, q) && q != []
    ensures q == [q[0]] + q[1..] && q[0].u in Users(c.f, q[0].r) && HasOffset(c, q[0].r, q[0].off)
    ensures (q[0].u, q[0].r) !in done && (q[0].u.ByInst? ==> (q[0].u, q[0].r) in Pairs(c.f))
    ensures Accesses(c.f, q[0].u, q[0].r) ==> q[0].u.ByInst?
  {
    hide Users, Pairs;
    assert ItemOk(c, seen, done, q[0]);
  }

  lemma CannotFollow(c: Search, i: Item)
    requires i.u in Users(c.f, i.r) && HasOffset(c, i.r, i.off)
    requires !Accesses(c.f, i.u, i.r) && StepTo(c.f, c.obj.align, i.u, i.r, i.off).None?
    ensures EscapesFrom(c.f, c.obj.align, c.fr, c.off0)
  {
    hide Users, StepTo, DerivedFrom, Accesses;
    StepAnyOffset(c.f, c.obj.align, i.u, i.r, i.off);
    assert !Trackable(c.f, c.obj.align, i.u, i.r);
  }

  /** An access has been recorded. */
  lemma Record(c: Search, found: map<User, (int, nat)>, seen: map<Ref, int>, done: set<(User, Ref)>, q: seq<Item>)
    requires Searching(c, found, seen, done, q) && q != [] && Accesses(c.f, q[0].u, q[0].r)
    ensures Searching(c, found[q[0].u := (q[0].off, TypeOf(c.f, q[0].u))], seen, done + {(q[0].u, q[0].r)}, q[1..])
  {
    hide Users, StepTo, DerivedFrom, TypeOf, IsFrame;
    var i := q[0];
    var found', done' := found[i.u := (i.off, TypeOf(c.f, i.u))], done + {(i.u, i.r)};
    assert ItemOk(c, seen, done, i);
    forall r | r in seen && r != c.fr
      ensures Entered(c, seen, done', r)
    {
      assert Entered(c, seen, done, r);
    }
    HeadDone(c, seen, done, q);
    forall u, r | (u, r) in done'
      ensures Handled(c, found', seen, u, r)
    {
      if (u, r) in done {
        assert Handled(c, found, seen, u, r);
        SameAccess(c.f, u, r, i.r);
      }
    }
    forall u | u in found'
      ensures Recorded(c, done', u)
    {
      if u == i.u {
        assert (i.u, i.r) in done';
      } else {
        assert Recorded(c, done, u);
      }
    }
  }

  lemma SameAccess(f: Func, u: User, r: Ref, r': Ref)
    ensures Accesses(f, u, r) && Accesses(f, u, r') ==> r == r'
  {
  }

  /** The queue without its head, which is done with. */
  lemma HeadDone(c: Search, seen: map<Ref, int>, done: set<(User, Ref)>, q: seq<Item>)
    requires QueueOk(c, seen, done, q) && Covered(c, seen, done, q) && q != []
    ensures var done' := done + {(q[0].u, q[0].r)}; QueueOk(c, seen, done', q[1..]) && Covered(c, seen, done', q[1..])
  {
    hide Users;
    var i, done' := q[0], done + {(q[0].u, q[0].r)};
    assert ItemOk(c, seen, done, i);
    forall j | 0 <= j < |q[1..]|
      ensures ItemOk(c, seen, done', q[1..][j])
    {
      assert ItemOk(c, seen, done, q[j + 1]) && q[0] != q[j + 1];
    }
    forall r, u | r in seen && u in Users(c.f, r)
      ensures (u, r) in done' || Item(u, r, seen[r]) in q[1..]
    {
      assert Item(u, r, seen[r]) in q ==> Item(u, r, seen[r]) == i || Item(u, r, seen[r]) in q[1..];
    }
  }

  /** The address a use leads to has not been met: it is reached in one way only. */
  lemma NotMet(c: Search, found: map<User, (int, nat)>, seen: map<Ref, int>, done: set<(User, Ref)>, q: seq<Item>,
               off: int)
    requires Searching(c, found, seen, done, q) && q != [] && q[0].u.ByInst?
    requires StepTo(c.f, c.obj.align, q[0].u, q[0].r, q[0].off) == Some(off)
    ensures ResultOf(q[0].u) !in seen
  {
    hide Users, StepTo, DerivedFrom, Covered, FoundOk, Accesses;
    var i, x := q[0], ResultOf(q[0].u);
    assert ItemOk(c, seen, done, i) && DefOf(x) == i.u;
    if x == c.fr {
      NoStepToFrame(c.f, c.obj, c.fr, c.off0, c.obj.align, i.r, i.off);
      assert false;
    } else if x in seen {
      assert Entered(c, seen, done, x);
      var y :| y in seen && (i.u, y) in done && !Accesses(c.f, i.u, y);
      assert Handled(c, found, seen, i.u, y);
      NotConstant(c.f, c.obj, c.fr, c.off0, y, seen[y]);
      NotConstant(c.f, c.obj, c.fr, c.off0, i.r, i.off);
      StepAnyOffset(c.f, c.obj.align, i.u, y, seen[y]);
      StepAnyOffset(c.f, c.obj.align, i.u, i.r, i.off);
      OneOperand(c.f, c.obj.align, i.u, y, i.r);
      assert false;
    }
  }

  /** A use has been followed. */
  lemma Follow(c: Search, found: map<User, (int, nat)>, seen: map<Ref, int>, done: set<(User, Ref)>, q: seq<Item>,
               off: int, us: seq<User>)
    requires Searching(c, found, seen, done, q) && q != [] && q[0].u.ByInst? && !Accesses(c.f, q[0].u, q[0].r)
    requires StepTo(c.f, c.obj.align, q[0].u, q[0].r, q[0].off) == Some(off) && IsUseList(c.f, ResultOf(q[0].u), us)
    ensures var x := ResultOf(q[0].u);
      Searching(c, found, seen[x := off], done + {(q[0].u, q[0].r)}, q[1..] + Items(us, x, off))
  {
    hide Users, StepTo, DerivedFrom, Accesses, QueueOk, Covered, SeenOk, DoneOk, IsFrame;
    NotMet(c, found, seen, done, q, off);
    HeadDone(c, seen, done, q);
    FollowSeen(c, seen, done, q, off);
    FollowDone(c, found, seen, done, q, off);
    FollowQueue(c, seen, done + {(q[0].u, q[0].r)}, q[1..], ResultOf(q[0].u), off, us);
    forall u | u in found
      ensures Recorded(c, done + {(q[0].u, q[0].r)}, u)
    {
      assert Recorded(c, done, u);
    }
  }

  lemma FollowSeen(c: Search, seen: map<Ref, int>, done: set<(User, Ref)>, q: seq<Item>, off: int)
    requires SeenOk(c, seen, done) && QueueOk(c, seen, done, q) && q != [] && q[0].u.ByInst?
    requires ResultOf(q[0].u) !in seen
    requires StepTo(c.f, c.obj.align, q[0].u, q[0].r, q[0].off) == Some(off) && !Accesses(c.f, q[0].u, q[0].r)
    ensures SeenOk(c, seen[ResultOf(q[0].u) := off], done + {(q[0].u, q[0].r)})
  {
    hide Users, StepTo, DerivedFrom, Accesses;
    var i, x := q[0], ResultOf(q[0].u);
    var seen', done' := seen[x := off], done + {(i.u, i.r)};
    assert ItemOk(c, seen, done, i) && DefOf(x) == i.u;
    assert IsStep(c.f, c.obj.align, i.r, x, i.off, off);
    DerivedStep(c.f, c.obj.align, c.fr, c.off0, i.r, x, i.off, off);
    forall r | r in seen' && r != c.fr
      ensures Entered(c, seen', done', r)
    {
      if r != x {
        assert Entered(c, seen, done, r);
      } else {
        assert i.r in seen' && (DefOf(x), i.r) in done';
      }
    }
  }

  lemma FollowQueue(c: Search, seen: map<Ref, int>, done: set<(User, Ref)>, q: seq<Item>, x: Ref, off: int,
                    us: seq<User>)
    requires QueueOk(c, seen, done, q) && Covered(c, seen, done, q) && IsUseList(c.f, x, us)
    requires x !in seen && forall u, r :: (u, r) in done ==> r in seen
    ensures var seen' := seen[x := off]; var q' := q + Items(us, x, off);
      QueueOk(c, seen', done, q') && Covered(c, seen', done, q')
  {
    hide Users;
    var seen', more := seen[x := off], Items(us, x, off);
    var q' := q + more;
    forall i | 0 <= i < |q'|
      ensures ItemOk(c, seen', done, q'[i])
    {
      if i < |q| {
        assert ItemOk(c, seen, done, q[i]);
      } else {
        assert us[i - |q|] in us;
      }
    }
    forall i, j | 0 <= i < j < |q'|
      ensures q'[i] != q'[j]
    {
      if i < |q| {
        assert ItemOk(c, seen, done, q[i]);
      }
    }
    forall r, u | r in seen' && u in Users(c.f, r)
      ensures (u, r) in done || Item(u, r, seen'[r]) in q'
    {
      if r == x {
        var i :| 0 <= i < |us| && us[i] == u;
        assert q'[|q| + i] == Item(u, x, off);
      }
    }
  }

  lemma FollowDone(c: Search, found: map<User, (int, nat)>, seen: map<Ref, int>, done: set<(User, Ref)>, q: seq<Item>,
                   off: int)
    requires DoneOk(c, found, seen, done) && QueueOk(c, seen, done, q) && q != [] && q[0].u.ByInst?
    requires ResultOf(q[0].u) !in seen
    requires StepTo(c.f, c.obj.align, q[0].u, q[0].r, q[0].off) == Some(off) && !Accesses(c.f, q[0].u, q[0].r)
    ensures DoneOk(c, found, seen[ResultOf(q[0].u) := off], done + {(q[0].u, q[0].r)})
    ensures forall u, r :: (u, r) in done + {(q[0].u, q[0].r)} ==> r in seen
  {
    hide Users, StepTo, Accesses;
    assert ItemOk(c, seen, done, q[0]);
    forall u, r | (u, r) in done
      ensures Handled(c, found, seen[ResultOf(q[0].u) := off], u, r) && r in seen
    {
      assert Handled(c, found, seen, u, r);
    }
  }

  // ---------------------------------------------------------------- the worklist is exact

  /** Everything derived has been met. */
  lemma {:induction false} DerivedSeen(c: Search, found: map<User, (int, nat)>, seen: map<Ref, int>,
                                       done: set<(User, Ref)>,
                                       r: Ref, off: int, p: seq<Ref>)
    requires Searching(c, found, seen, done, []) && TraceTo(c.f, c.obj.align, c.fr, c.off0, r, off, p)
    ensures r in seen && seen[r] == off
    decreases |p|
  {
    hide StepTo, Users, Accesses, FoundOk;
    if |p| == 1 {
      StartsAtFrame(c.f, c.obj.align, c.fr, c.off0);
      DerivedUnique(c.f, c.obj, c.fr, c.off0, c.fr, c.off0, c.fr, off, seen[c.fr]);
    } else {
      var y, o := LastStep(c.f, c.obj.align, c.fr, c.off0, r, off, p);
      DerivedSeen(c, found, seen, done, y, o, p[..|p| - 1]);
      assert (DefOf(r), y) in done;
      assert Handled(c, found, seen, DefOf(r), y);
      StepAnyOffset(c.f, c.obj.align, DefOf(r), y, o);
    }
  }

  lemma SearchEnds(c: Search, found: map<User, (int, nat)>, seen: map<Ref, int>, done: set<(User, Ref)>)
    requires Searching(c, found, seen, done, [])
    ensures !EscapesFrom(c.f, c.obj.align, c.fr, c.off0)
    ensures forall u: User, off: int, ty: nat ::
      IsUseFrom(c.f, c.obj.align, c.fr, c.off0, u, off, ty) <==> u in found && found[u] == (off, ty)
  {
    hide StepTo, Users, Accesses, TypeOf, IsFrame, Searching, DerivedFrom;
    if EscapesFrom(c.f, c.obj.align, c.fr, c.off0) {
      var r, off: int, u :|
        DerivedFrom(c.f, c.obj.align, c.fr, c.off0, r, off) && u in Users(c.f, r) && !Trackable(c.f, c.obj.align, u, r);
      UseHandled(c, found, seen, done, r, off, u);
      assert false;
    }
    forall r, off: int, u | HasOffset(c, r, off) && u in Users(c.f, r)
      ensures Trackable(c.f, c.obj.align, u, r)
      ensures Accesses(c.f, u, r) ==> u in found && found[u] == (off, TypeOf(c.f, u))
    {
      UseHandled(c, found, seen, done, r, off, u);
    }
    forall u: User | u in found
      ensures IsUseFrom(c.f, c.obj.align, c.fr, c.off0, u, found[u].0, found[u].1)
    {
      FoundIsUse(c, found, seen, done, u);
    }
    forall u: User, off: int, ty: nat | IsUseFrom(c.f, c.obj.align, c.fr, c.off0, u, off, ty)
      ensures u in found && found[u] == (off, ty)
    {
      var r :| HasOffset(c, r, off) && AccessOf(c.f, u, r, ty);
    }
  }

  lemma UseHandled(c: Search, found: map<User, (int, nat)>, seen: map<Ref, int>, done: set<(User, Ref)>, r: Ref,
                   off: int, u: User)
    requires Searching(c, found, seen, done, []) && HasOffset(c, r, off) && u in Users(c.f, r)
    ensures Trackable(c.f, c.obj.align, u, r)
    ensures Accesses(c.f, u, r) ==> u in found && found[u] == (off, TypeOf(c.f, u))
  {
    hide StepTo, Users, Accesses, TypeOf, IsFrame;
    var p :| TraceTo(c.f, c.obj.align, c.fr, c.off0, r, off, p);
    DerivedSeen(c, found, seen, done, r, off, p);
    assert (u, r) in done;
    assert Handled(c, found, seen, u, r);
    StepAnyOffset(c.f, c.obj.align, u, r, off);
  }

  lemma FoundIsUse(c: Search, found: map<User, (int, nat)>, seen: map<Ref, int>, done: set<(User, Ref)>, u: User)
    requires Searching(c, found, seen, done, []) && u in found
    ensures IsUseFrom(c.f, c.obj.align, c.fr, c.off0, u, found[u].0, found[u].1)
  {
    hide StepTo, Users, Accesses, TypeOf, IsFrame, DerivedFrom;
    assert Recorded(c, done, u);
    var r :| (u, r) in done && Accesses(c.f, u, r);
    assert Handled(c, found, seen, u, r);
    assert AccessOf(c.f, u, r, TypeOf(c.f, u));
  }

  // ---------------------------------------------------------------- all addresses of the object

  /** Frame instructions are visited in the order of the function. */
  predicate Before(fr: Ref, b: nat, k: nat) {
    fr.b < b || (fr.b == b && fr.Res? && fr.k < k)
  }

  ghost predicate EscapesBefore(f: Func, obj: Object, b: nat, k: nat) {
    exists fr, off0: int :: IsFrame(f, obj, fr, off0) && Before(fr, b, k) && EscapesFrom(f, obj.align, fr, off0)
  }

  /** An access through a frame address that has been visited and does not escape. */
  ghost predicate UseBefore(f: Func, obj: Object, b: nat, k: nat, u: User, off: int, ty: nat) {
    exists fr, off0: int :: TamedFrame(f, obj, fr, off0, b, k) && IsUseFrom(f, obj.align, fr, off0, u, off, ty)
  }

  ghost predicate TamedFrame(f: Func, obj: Object, fr: Ref, off0: int, b: nat, k: nat) {
    IsFrame(f, obj, fr, off0) && Before(fr, b, k) && !EscapesFrom(f, obj.align, fr, off0)
  }

  ghost predicate Gathered(f: Func, obj: Object, b: nat, k: nat, escapes: bool, uses: map<User, (int, nat)>) {
    && (escapes <==> EscapesBefore(f, obj, b, k))
    && forall u: User, off: int, ty: nat :: UseBefore(f, obj, b, k, u, off, ty) <==> u in uses && uses[u] == (off, ty)
  }

  /** The accesses to the object, with their offsets and types. */
  ghost predicate AllUses(f: Func, obj: Object, uses: map<User, (int, nat)>) {
    forall u: User, off: int, ty: nat :: IsUse(f, obj, u, off, ty) <==> u in uses && uses[u] == (off, ty)
  }

  /** The uses of all frame addresses of an object, and whether one of these escapes. */
  method FindAllUses(f: Func, obj: Object) returns (escapes: bool, uses: map<User, (int, nat)>)
    ensures escapes <==> Escapes(f, obj)
    ensures !escapes ==> AllUses(f, obj, uses)
  {
    hide Gathered, IsFrame, EscapesFrom, IsUseFrom, Escapes, AllUses;
    escapes, uses := false, map[];
    NoneGathered(f, obj);
    for b := 0 to |f.blocks|
      invariant Gathered(f, obj, b, 0, escapes, uses)
    {
      for k := 0 to |f.blocks[b].insts|
        invariant Gathered(f, obj, b, k, escapes, uses)
      {
        var inst := f.blocks[b].insts[k];
        if inst.op.Frame? && inst.op.slot == obj.index {
          FrameHere(f, obj, b, k);
          var found := FindUses(f, obj, Res(b, k, 0), inst.op.off);
          GatherFrame(f, obj, b, k, escapes, uses, found);
          match found {
            case None => escapes := true;
            case Some(more) => uses := uses + more;
          }
        } else {
          GatherOther(f, obj, b, k, escapes, uses);
        }
      }
      GatherBlock(f, obj, b, escapes, uses);
    }
    GatheredAll(f, obj, escapes, uses);
  }

  lemma NoneGathered(f: Func, obj: Object)
    ensures Gathered(f, obj, 0, 0, false, map[])
  {
  }

  lemma FrameHere(f: Func, obj: Object, b: nat, k: nat)
    requires b < |f.blocks| && k < |f.blocks[b].insts|
    requires f.blocks[b].insts[k].op.Frame? && f.blocks[b].insts[k].op.slot == obj.index
    ensures IsFrame(f, obj, Res(b, k, 0), f.blocks[b].insts[k].op.off)
  {
  }

  /** Only instruction k of b comes before k + 1 and not before k. */
  lemma BeforeNext(f: Func, obj: Object, fr: Ref, off0: int, b: nat, k: nat)
    requires IsFrame(f, obj, fr, off0)
    ensures Before(fr, b, k + 1) <==> Before(fr, b, k) || fr == Res(b, k, 0)
  {
  }

  lemma GatherOther(f: Func, obj: Object, b: nat, k: nat, escapes: bool, uses: map<User, (int, nat)>)
    requires Gathered(f, obj, b, k, escapes, uses) && b < |f.blocks| && k < |f.blocks[b].insts|
    requires !(f.blocks[b].insts[k].op.Frame? && f.blocks[b].insts[k].op.slot == obj.index)
    ensures Gathered(f, obj, b, k + 1, escapes, uses)
  {
    hide EscapesFrom, IsUseFrom;
    var m := k + 1;
    forall fr, off0: int | IsFrame(f, obj, fr, off0)
      ensures Before(fr, b, m) <==> Before(fr, b, k)
    {
    }
    hide IsFrame, Before;
    forall u: User, off: int, ty: nat
      ensures UseBefore(f, obj, b, m, u, off, ty) <==> UseBefore(f, obj, b, k, u, off, ty)
    {
      SameUseBefore(f, obj, b, k, b, m, u, off, ty);
    }
  }

  lemma SameUseBefore(f: Func, obj: Object, b: nat, k: nat, b': nat, k': nat, u: User, off: int, ty: nat)
    requires forall fr, off0: int :: IsFrame(f, obj, fr, off0) ==> (Before(fr, b, k) <==> Before(fr, b', k'))
    ensures UseBefore(f, obj, b, k, u, off, ty) <==> UseBefore(f, obj, b', k', u, off, ty)
  {
    hide EscapesFrom, IsUseFrom, IsFrame, Before;
    if UseBefore(f, obj, b, k, u, off, ty) {
      var fr, off0: int :| TamedFrame(f, obj, fr, off0, b, k) && IsUseFrom(f, obj.align, fr, off0, u, off, ty);
      assert TamedFrame(f, obj, fr, off0, b', k');
    }
    if UseBefore(f, obj, b', k', u, off, ty) {
      var fr, off0: int :| TamedFrame(f, obj, fr, off0, b', k') && IsUseFrom(f, obj.align, fr, off0, u, off, ty);
      assert TamedFrame(f, obj, fr, off0, b, k);
    }
  }

  lemma GatherBlock(f: Func, obj: Object, b: nat, escapes: bool, uses: map<User, (int, nat)>)
    requires b < |f.blocks| && Gathered(f, obj, b, |f.blocks[b].insts|, escapes, uses)
    ensures Gathered(f, obj, b + 1, 0, escapes, uses)
  {
    hide EscapesFrom, IsUseFrom;
    var k, c := |f.blocks[b].insts|, b + 1;
    forall fr, off0: int | IsFrame(f, obj, fr, off0)
      ensures Before(fr, c, 0) <==> Before(fr, b, k)
    {
    }
    hide IsFrame, Before;
    forall u: User, off: int, ty: nat
      ensures UseBefore(f, obj, c, 0, u, off, ty) <==> UseBefore(f, obj, b, k, u, off, ty)
    {
      SameUseBefore(f, obj, b, k, c, 0, u, off, ty);
    }
  }

  lemma GatherFrame(f: Func, obj: Object, b: nat, k: nat, escapes: bool, uses: map<User, (int, nat)>,
                    found: Option<map<User, (int, nat)>>)
    requires b < |f.blocks| && k < |f.blocks[b].insts| && Gathered(f, obj, b, k, escapes, uses)
    requires f.blocks[b].insts[k].op.Frame? && IsFrame(f, obj, Res(b, k, 0), f.blocks[b].insts[k].op.off)
    requires found.None? <==> EscapesFrom(f, obj.align, Res(b, k, 0), f.blocks[b].insts[k].op.off)
    requires found.Some? ==> forall u: User, off: int, ty: nat ::
      IsUseFrom(f, obj.align, Res(b, k, 0), f.blocks[b].insts[k].op.off, u, off, ty) <==>
      u in found.value && found.value[u] == (off, ty)
    ensures Gathered(f, obj, b, k + 1, escapes || found.None?, if found.Some? then uses + found.value else uses)
  {
    hide EscapesFrom, IsUseFrom;
    var m, x, off1 := k + 1, Res(b, k, 0), f.blocks[b].insts[k].op.off;
    forall fr, off0: int | IsFrame(f, obj, fr, off0)
      ensures Before(fr, b, m) <==> Before(fr, b, k) || fr == x
      ensures fr == x ==> off0 == off1
    {
      BeforeNext(f, obj, fr, off0, b, k);
    }
    assert !Before(x, b, k);
    hide IsFrame, Before;
    forall u: User, off: int, ty: nat
      ensures UseBefore(f, obj, b, m, u, off, ty) <==>
              UseBefore(f, obj, b, k, u, off, ty) || (found.Some? && IsUseFrom(f, obj.align, x, off1, u, off, ty))
    {
      MoreUses(f, obj, b, k, x, off1, found.Some?, u, off, ty);
    }
    if found.Some? {
      forall u | u in found.value
        ensures u !in uses
      {
        assert IsUseFrom(f, obj.align, x, off1, u, found.value[u].0, found.value[u].1);
        if u in uses {
          assert UseBefore(f, obj, b, k, u, uses[u].0, uses[u].1);
          var fr, off0: int :| TamedFrame(f, obj, fr, off0, b, k) &&
            IsUseFrom(f, obj.align, fr, off0, u, uses[u].0, uses[u].1);
          UseUnique(f, obj, fr, off0, x, off1, u, uses[u].0, uses[u].1, found.value[u].0, found.value[u].1);
        }
      }
    }
  }

  lemma MoreUses(f: Func, obj: Object, b: nat, k: nat, x: Ref, off1: int, tame: bool, u: User, off: int, ty: nat)
    requires IsFrame(f, obj, x, off1) && (tame <==> !EscapesFrom(f, obj.align, x, off1))
    requires forall fr, off0: int :: IsFrame(f, obj, fr, off0) ==>
      (Before(fr, b, k + 1) <==> Before(fr, b, k) || fr == x) && (fr == x ==> off0 == off1)
    ensures UseBefore(f, obj, b, k + 1, u, off, ty) <==>
            UseBefore(f, obj, b, k, u, off, ty) || (tame && IsUseFrom(f, obj.align, x, off1, u, off, ty))
  {
    hide EscapesFrom, IsUseFrom, IsFrame, Before;
    var m := k + 1;
    if UseBefore(f, obj, b, m, u, off, ty) {
      var fr, off0: int :| TamedFrame(f, obj, fr, off0, b, m) && IsUseFrom(f, obj.align, fr, off0, u, off, ty);
      assert fr != x ==> TamedFrame(f, obj, fr, off0, b, k);
    }
    if UseBefore(f, obj, b, k, u, off, ty) {
      var fr, off0: int :| TamedFrame(f, obj, fr, off0, b, k) && IsUseFrom(f, obj.align, fr, off0, u, off, ty);
      assert TamedFrame(f, obj, fr, off0, b, m);
    }
    if tame && IsUseFrom(f, obj.align, x, off1, u, off, ty) {
      assert TamedFrame(f, obj, x, off1, b, m);
    }
  }

  /** An access goes through one frame address. */
  lemma UseUnique(f: Func, obj: Object, fr: Ref, off0: int, gr: Ref, off1: int, u: User, o: int, ty: nat, o': int,
                  ty': nat)
    requires IsFrame(f, obj, fr, off0) && IsFrame(f, obj, gr, off1)
    requires IsUseFrom(f, obj.align, fr, off0, u, o, ty) && IsUseFrom(f, obj.align, gr, off1, u, o', ty')
    ensures fr == gr
  {
    hide IsFrame, DerivedFrom;
    var r :| DerivedFrom(f, obj.align, fr, off0, r, o) && AccessOf(f, u, r, ty);
    var r' :| DerivedFrom(f, obj.align, gr, off1, r', o') && AccessOf(f, u, r', ty');
    SameAccess(f, u, r, r');
    DerivedUnique(f, obj, fr, off0, gr, off1, r, o, o');
  }

  lemma GatheredAll(f: Func, obj: Object, escapes: bool, uses: map<User, (int, nat)>)
    requires Gathered(f, obj, |f.blocks|, 0, escapes, uses)
    ensures escapes <==> Escapes(f, obj)
    ensures !escapes ==> AllUses(f, obj, uses)
  {
    hide DerivedFrom, AccessOf, Users;
    var n := |f.blocks|;
    assert forall fr, off0: int :: IsFrame(f, obj, fr, off0) ==> Before(fr, n, 0);
    hide IsFrame, Before;
    if Escapes(f, obj) {
      var r, off: int, u :| Derived(f, obj, r, off) && u in Users(f, r) && !Trackable(f, obj.align, u, r);
      var fr, off0: int :| IsFrame(f, obj, fr, off0) && DerivedFrom(f, obj.align, fr, off0, r, off);
      assert EscapesFrom(f, obj.align, fr, off0);
    }
    if EscapesBefore(f, obj, n, 0) {
      var fr, off0: int :| IsFrame(f, obj, fr, off0) && Before(fr, n, 0) && EscapesFrom(f, obj.align, fr, off0);
      var r, off: int, u :| DerivedFrom(f, obj.align, fr, off0, r, off) && u in Users(f, r) &&
        !Trackable(f, obj.align, u, r);
      assert Derived(f, obj, r, off);
    }
    if !escapes {
      forall u: User, off: int, ty: nat
        ensures IsUse(f, obj, u, off, ty) <==> UseBefore(f, obj, n, 0, u, off, ty)
      {
        UseOfObject(f, obj, u, off, ty);
      }
    }
  }

  lemma UseOfObject(f: Func, obj: Object, u: User, off: int, ty: nat)
    requires !EscapesBefore(f, obj, |f.blocks|, 0)
    requires forall fr, off0: int :: IsFrame(f, obj, fr, off0) ==> Before(fr, |f.blocks|, 0)
    ensures IsUse(f, obj, u, off, ty) <==> UseBefore(f, obj, |f.blocks|, 0, u, off, ty)
  {
    hide DerivedFrom, AccessOf, IsFrame, Before, EscapesFrom;
    if IsUse(f, obj, u, off, ty) {
      var r :| Derived(f, obj, r, off) && AccessOf(f, u, r, ty);
      var fr, off0: int :| IsFrame(f, obj, fr, off0) && DerivedFrom(f, obj.align, fr, off0, r, off);
      assert TamedFrame(f, obj, fr, off0, |f.blocks|, 0);
      assert IsUseFrom(f, obj.align, fr, off0, u, off, ty);
    }
    if UseBefore(f, obj, |f.blocks|, 0, u, off, ty) {
      var fr, off0: int :|
        TamedFrame(f, obj, fr, off0, |f.blocks|, 0) && IsUseFrom(f, obj.align, fr, off0, u, off, ty);
      var r :| DerivedFrom(f, obj.align, fr, off0, r, off) && AccessOf(f, u, r, ty);
      assert Derived(f, obj, r, off);
    }
  }
}
