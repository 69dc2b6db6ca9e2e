/** The intrusive use lists of core/use.cpp, core/value.cpp, core/user.cpp and core/inst.cpp. */
module UseLists {

  /** What a use points to: nothing, a tagged number of the parser, or a value. */
  datatype Slot = Null | Tagged(n: nat) | Of(v: Value)

  datatype Ref = Ref(slot: Slot, index: nat)

  class Value {
    /** The head of the list of uses. */
    var users: Use?
    /** The list itself. */
    ghost var chain: seq<Use>

    constructor ()
      ensures users == null && chain == []
    {
      users, chain := null, [];
    }

    ghost predicate ListOk()
      reads this, chain
    {
      && users == (if chain == [] then null else chain[0])
      && (forall i: nat :: i < |chain| ==> NodeOk(i))
      && NoRepeats(chain)
    }

    /** The ith use is linked to its neighbours. */
    ghost predicate NodeOk(i: nat)
      requires i < |chain|
      reads this, chain
    {
      && chain[i].prev == (if i == 0 then null else chain[i - 1])
      && chain[i].next == (if i + 1 == |chain| then null else chain[i + 1])
    }
  }

  /** The lists of the live values hold exactly the live uses that point to them. */
  ghost predicate Linked(vs: set<Value>, us: set<Use>)
    reads vs, us
  {
    (forall v :: v in vs ==> Owns(v, us)) && (forall u :: u in us ==> Placed(u, vs))
  }

  ghost predicate Owns(v: Value, us: set<Use>)
    reads v, us
  {
    (forall u :: u in v.chain ==> u in us && u.val.slot == Of(v)) && v.ListOk()
  }

  ghost predicate Placed(u: Use, vs: set<Value>)
    reads u, vs
  {
    if u.val.slot.Of? then u.val.slot.v in vs && u in u.val.slot.v.chain else u.prev == null && u.next == null
  }

  ghost predicate NoRepeats(s: seq<Use>) {
    forall i: nat, j: nat :: i < j < |s| ==> s[i] != s[j]
  }

  lemma Apart(s: seq<Use>, i: nat)
    requires NoRepeats(s) && i < |s|
    ensures s[i] !in s[..i] && s[i] !in s[i + 1..]
    ensures s[..i + 1] == s[..i] + [s[i]] && s[i..] == [s[i]] + s[i + 1..]
  {
  }

  lemma WithoutMembers(s: seq<Use>, i: nat)
    requires i < |s| && s[i] !in s[..i] && s[i] !in s[i + 1..]
    ensures forall u :: u in Without(s, i) <==> u in s && u != s[i]
  {
    assert s == s[..i] + [s[i]] + s[i + 1..];
  }

  function Without(s: seq<Use>, i: nat): seq<Use>
    requires i < |s|
  {
    s[..i] + s[i + 1..]
  }

  ghost function Minus(s: seq<Use>, u: Use): seq<Use> {
    if s == [] then [] else (if s[0] == u then [] else [s[0]]) + Minus(s[1..], u)
  }

  lemma {:induction false} MinusAbsent(s: seq<Use>, u: Use)
    requires u !in s
    ensures Minus(s, u) == s
  {
    if s != [] {
      MinusAbsent(s[1..], u);
    }
  }

  lemma {:induction false} MinusConcat(s: seq<Use>, t: seq<Use>, u: Use)
    ensures Minus(s + t, u) == Minus(s, u) + Minus(t, u)
  {
    if s == [] {
      assert s + t == t;
    } else {
      assert (s + t)[1..] == s[1..] + t;
      MinusConcat(s[1..], t, u);
    }
  }

  /** In a list without repetitions one use disappears. */
  lemma MinusOne(s: seq<Use>, i: nat)
    requires i < |s| && s[i] !in s[..i] && s[i] !in s[i + 1..]
    ensures Minus(s, s[i]) == Without(s, i)
  {
    hide Minus;
    SplitAt(s, i);
    MinusConcat(s[..i], [s[i]] + s[i + 1..], s[i]);
    MinusAbsent(s[..i], s[i]);
    MinusFirst(s[i], s[i + 1..]);
  }

  lemma SplitAt(s: seq<Use>, i: nat)
    requires i < |s|
    ensures s == s[..i] + ([s[i]] + s[i + 1..])
  {
  }

  lemma MinusFirst(u: Use, s: seq<Use>)
    requires u !in s
    ensures Minus([u] + s, u) == s
  {
    assert ([u] + s)[1..] == s;
    MinusAbsent(s, u);
  }

  /** The lists and references of the live objects, without the links. */
  ghost predicate Listed(us: set<Use>, vals: map<Use, Ref>, chains: map<Value, seq<Use>>) {
    && vals.Keys == us
    && (forall w, u :: w in chains && u in chains[w] ==> u in us && vals[u].slot == Of(w))
    && (forall u :: u in us && vals[u].slot.Of? ==> vals[u].slot.v in chains && u in chains[vals[u].slot.v])
  }

  lemma Snapshot(vs: set<Value>, us: set<Use>)
    requires Linked(vs, us)
    ensures Listed(us, Vals(us), Chains(vs))
    ensures forall w :: w in vs ==> w.ListOk()
    ensures forall u :: u in us && !u.val.slot.Of? ==> u.prev == null && u.next == null
  {
    hide Value.ListOk;
    forall w, u | w in vs && u in w.chain
      ensures u in us && u.val.slot == Of(w)
    {
      assert Owns(w, us);
    }
    forall w | w in vs
      ensures w.ListOk()
    {
      assert Owns(w, us);
    }
    forall u | u in us
      ensures Placed(u, vs)
    {
    }
  }

  /** After the ith use of v was unlinked. */
  lemma Relink(v: Value, u: Use, i: nat, vs: set<Value>, us: set<Use>, vals: map<Use, Ref>,
               chains: map<Value, seq<Use>>)
    requires Listed(us, vals, chains) && chains.Keys == vs && v in vs && u in us
    requires NoRepeats(chains[v]) && i < |chains[v]| && chains[v][i] == u && v.chain == Without(chains[v], i)
    requires forall w :: w in vs ==> w.ListOk()
    requires forall w :: w in vs && w != v ==> w.chain == chains[w]
    requires forall x :: x in us ==> x.val == vals[x]
    requires forall x :: x in us && !x.val.slot.Of? ==> x.prev == null && x.next == null
    ensures Linked(vs, us - {u})
    ensures forall w :: w in vs ==> w.chain == Minus(chains[w], u)
  {
    hide Value.ListOk, NoRepeats, Minus, Without;
    Apart(chains[v], i);
    WithoutMembers(chains[v], i);
    MinusOne(chains[v], i);
    assert vals[u].slot == Of(v);
    forall w | w in vs
      ensures Owns(w, us - {u}) && w.chain == Minus(chains[w], u)
    {
      if w != v {
        assert u !in chains[w];
        MinusAbsent(chains[w], u);
      }
    }
  }

  lemma StaysUnlinked(u: Use, vs: set<Value>, us: set<Use>)
    requires Linked(vs, us) && u in us && !u.val.slot.Of?
    ensures Linked(vs, us - {u}) && u.prev == null && u.next == null
    ensures forall w :: w in vs ==> w.chain == Minus(w.chain, u)
  {
    hide Value.ListOk, Minus;
    assert Placed(u, vs);
    forall w | w in vs
      ensures Owns(w, us - {u}) && w.chain == Minus(w.chain, u)
    {
      assert Owns(w, us);
      MinusAbsent(w.chain, u);
    }
  }

  lemma OwnsDistinct(v: Value, us: set<Use>)
    requires Owns(v, us)
    ensures NoRepeats(v.chain)
  {
  }

  class Use {
    const user: Value?
    var val: Ref
    var prev: Use?
    var next: Use?

    constructor (val: Ref, user: Value?, ghost vs: set<Value>, ghost us: set<Use>)
      requires Linked(vs, us) && (val.slot.Of? ==> val.slot.v in vs)
      modifies if val.slot.Of? then {val.slot.v} + (if val.slot.v.users == null then {} else {val.slot.v.users}) else {}
      ensures Linked(vs, us + {this}) && this.val == val && this.user == user
      ensures forall v :: v in vs ==> v.chain == if val.slot == Of(v) then [this] + old(v.chain) else old(v.chain)
      ensures forall u :: u in us ==> u.val == old(u.val)
    {
      this.val, this.user, prev, next := val, user, null, null;
      new;
      Add(vs, us);
    }

    /** Takes this use out of the chain. */
    method Unlink(ghost i: nat)
      requires val.slot.Of? && val.slot.v.ListOk() && i < |val.slot.v.chain| && val.slot.v.chain[i] == this
      modifies this`prev, this`next, val.slot.v
      modifies if prev == null then {} else {prev}
      modifies if next == null then {} else {next}
      ensures val == old(val)
      ensures val.slot.v.ListOk() && prev == null && next == null
      ensures val.slot.v.chain == Without(old(val.slot.v.chain), i)
      ensures forall u :: u in old(val.slot.v.chain) ==> u.val == old(u.val)
    {
      var v := val.slot.v;
      ghost var c := v.chain;
      assert v.NodeOk(i) && (i > 0 ==> v.NodeOk(i - 1)) && (i + 1 < |c| ==> v.NodeOk(i + 1));
      if next != null {
        next.prev := prev;
      }
      if prev != null {
        prev.next := next;
      }
      if this == v.users {
        v.users := next;
      }
      next, prev := null, null;
      v.chain := Without(c, i);
      forall j: nat | j < |v.chain|
        ensures v.NodeOk(j)
      {
        if j < i { assert old(v.NodeOk(j)); } else { assert old(v.NodeOk(j + 1)); }
      }
    }

    /** Unlinks this use; its reference stays. */
    method Remove(ghost vs: set<Value>, ghost us: set<Use>)
      requires Linked(vs, us) && this in us
      modifies this`prev, this`next
      modifies if val.slot.Of? then {val.slot.v} + (if prev == null then {} else {prev}) +
        (if next == null then {} else {next}) else {}
      ensures Linked(vs, us - {this}) && prev == null && next == null
      ensures forall v :: v in vs ==> v.chain == Minus(old(v.chain), this)
      ensures forall u :: u in us ==> u.val == old(u.val)
    {
      hide Linked, Listed, NoRepeats, Minus, Without;
      ghost var vals, chains := Vals(us), Chains(vs);
      Snapshot(vs, us);
      if val.slot.Of? {
        var v := val.slot.v;
        ghost var i := Position(vs, us);
        NotInOthers(v, i, vs, us);
        OwnsDistinct(v, us);
        ghost var c, p, n := v.chain, prev, next;
        Unlink(i);
        forall w | w in vs
          ensures w.ListOk()
        {
          if w != v {
            assert old(w.ListOk()) && w.chain == old(w.chain) && w.users == old(w.users);
            forall k: nat | k < |w.chain|
              ensures w.NodeOk(k)
            {
              assert old(w.NodeOk(k));
              assert w.chain[k] in w.chain && w.chain[k] !in c;
              assert w.chain[k] != this && w.chain[k] != p && w.chain[k] != n;
            }
          }
        }
        Relink(v, this, i, vs, us, vals, chains);
      } else {
        StaysUnlinked(this, vs, us);
      }
    }

    /** Where this use stands in the list of its value. */
    lemma Position(vs: set<Value>, us: set<Use>) returns (i: nat)
      requires Linked(vs, us) && this in us && val.slot.Of?
      ensures val.slot.v in vs && Owns(val.slot.v, us) && i < |val.slot.v.chain| && val.slot.v.chain[i] == this
      ensures prev != null ==> prev in val.slot.v.chain
      ensures next != null ==> next in val.slot.v.chain
    {
      var v := val.slot.v;
      assert Placed(this, vs) && Owns(v, us);
      i :| i < |v.chain| && v.chain[i] == this;
      Neighbours(v, i);
    }

    lemma NotInOthers(v: Value, i: nat, vs: set<Value>, us: set<Use>)
      requires Linked(vs, us) && v in vs && i < |v.chain| && v.chain[i] == this
      ensures forall w, x :: w in vs && w != v && x in v.chain ==> x !in w.chain
    {
      forall w, x | w in vs && w != v && x in v.chain
        ensures x !in w.chain
      {
        OthersApart(v, w, vs, us);
      }
    }

    lemma Neighbours(v: Value, i: nat)
      requires v.ListOk() && i < |v.chain| && v.chain[i] == this
      ensures prev != null ==> prev in v.chain
      ensures next != null ==> next in v.chain
    {
      assert v.NodeOk(i);
    }

    /** Links this use in front of the list of its value. */
    method Add(ghost vs: set<Value>, ghost us: set<Use>)
      requires Linked(vs, us) && this !in us && (val.slot.Of? ==> val.slot.v in vs) && prev == null && next == null
      modifies this`prev, this`next
      modifies if val.slot.Of? then {val.slot.v} + (if val.slot.v.users == null then {} else {val.slot.v.users}) else {}
      ensures Linked(vs, us + {this})
      ensures forall v :: v in vs ==> v.chain == if val.slot == Of(v) then [this] + old(v.chain) else old(v.chain)
      ensures forall u :: u in us ==> u.val == old(u.val)
    {
      if val.slot.Of? {
        var v := val.slot.v;
        ghost var q := v.users;
        assert Owns(v, us);
        next := v.users;
        prev := null;
        if next != null {
          next.prev := this;
        }
        v.users := this;
        v.chain := [this] + v.chain;
        assert v.ListOk() by {
          forall j: nat | j < |v.chain|
            ensures v.NodeOk(j)
          {
            assert j > 0 ==> old(v.NodeOk(j - 1));
          }
        }
        forall w | w in vs
          ensures Owns(w, us + {this})
        {
          assert old(Owns(w, us));
          assert w != v ==> this !in w.chain && (q != null ==> q !in w.chain);
        }
        forall u | u in us + {this}
          ensures Placed(u, vs)
        {
          assert u != this ==> old(Placed(u, vs));
        }
      }
    }

    /** Assigning to a use moves it to the front of the list of the new value. */
    method Assign(val: Ref, ghost vs: set<Value>, ghost us: set<Use>)
      requires Linked(vs, us) && this in us && (val.slot.Of? ==> val.slot.v in vs)
      modifies vs, us
      ensures Linked(vs, us) && this.val == val
      ensures forall v :: v in vs ==> v.chain == (if val.slot == Of(v) then [this] else []) + Minus(old(v.chain), this)
      ensures forall u :: u in us && u != this ==> u.val == old(u.val)
    {
      hide Linked, Minus;
      AllInside(vs, us);
      Remove(vs, us);
      this.val := val;
      AllInside(vs, us - {this});
      Add(vs, us - {this});
      assert us - {this} + {this} == us;
    }
  }

  /** Links never leave the live objects. */
  lemma AllInside(vs: set<Value>, us: set<Use>)
    requires Linked(vs, us)
    ensures forall v :: v in vs && v.users != null ==> v.users in us
    ensures forall u :: u in us && u.val.slot.Of? ==> u.val.slot.v in vs
    ensures forall u :: u in us && u.prev != null ==> u.prev in us
    ensures forall u :: u in us && u.next != null ==> u.next in us
  {
    forall u | u in us
      ensures (u.prev != null ==> u.prev in us) && (u.next != null ==> u.next in us)
    {
      assert Placed(u, vs);
      if u.val.slot.Of? {
        var v := u.val.slot.v;
        assert Owns(v, us);
        var i: nat :| i < |v.chain| && v.chain[i] == u;
        u.Neighbours(v, i);
      }
    }
    forall v | v in vs
      ensures v.users != null ==> v.users in us
    {
      assert Owns(v, us);
    }
  }

  lemma UseInside(u: Use, vs: set<Value>, us: set<Use>)
    requires Linked(vs, us) && u in us
    ensures u.val.slot.Of? ==> u.val.slot.v in vs
    ensures u.prev != null ==> u.prev in us
    ensures u.next != null ==> u.next in us
  {
    AllInside(vs, us);
  }

  lemma HeadInside(v: Value, vs: set<Value>, us: set<Use>)
    requires Linked(vs, us) && v in vs
    ensures v.users != null ==> v.users in us
  {
    AllInside(vs, us);
  }

  // ---------------------------------------------------------------- replacing all uses

  /** The first n uses of c that were given to w, the last one first. */
  ghost function Given(c: seq<Use>, n: nat, to: nat -> Ref, index: seq<nat>, w: Value): seq<Use>
    requires n <= |c| == |index|
  {
    if n == 0 then [] else
      (if to(index[n - 1]).slot == Of(w) then [c[n - 1]] else []) + Given(c, n - 1, to, index, w)
  }

  ghost function Indices(c: seq<Use>): (s: seq<nat>)
    reads c
    ensures |s| == |c| && forall i :: 0 <= i < |c| ==> s[i] == c[i].val.index
  {
    seq(|c|, i requires 0 <= i < |c| reads c => c[i].val.index)
  }

  /** Walks the uses of v and gives each of them the reference that to assigns to its index.
      The walk reads the next use before it moves one, so it meets each original use once,
      even when it gives uses back to v. */
  method ReplaceUses(v: Value, to: nat -> Ref, ghost vs: set<Value>, ghost us: set<Use>)
    requires Linked(vs, us) && v in vs
    requires forall i: nat :: to(i).slot.Of? ==> to(i).slot.v in vs
    modifies vs, us
    ensures Linked(vs, us)
    ensures forall u :: u in us ==> u.val == if old(u.val.slot) == Of(v) then to(old(u.val.index)) else old(u.val)
    ensures forall w :: w in vs ==>
      w.chain == Given(old(v.chain), |old(v.chain)|, to, old(Indices(v.chain)), w) + if w == v then [] else old(w.chain)
  {
    hide Linked, Given, Walked, Started, Minus;
    ghost var walk := Walk(v, v.chain, Indices(v.chain), to, Vals(us), Chains(vs));
    ghost var i: nat := 0;
    StartOfWalk(walk, vs, us);
    var it := v.users;
    while it != null
      invariant i <= |walk.c| && it == (if i < |walk.c| then walk.c[i] else null)
      invariant Linked(vs, us) && Walked(walk, i, Vals(us), Chains(vs))
      decreases |walk.c| - i
    {
      var use := it;
      ghost var vals, chains := Vals(us), Chains(vs);
      NextInChain(walk, i, vs, us);
      it := it.next;
      use.Assign(to(use.val.index), vs, us);
      WalkedStep(walk, i, vals, chains, Vals(us), Chains(vs));
      i := i + 1;
    }
    WalkEnds(walk, Vals(us), Chains(vs));
    forall u | u in us
      ensures u.val == if old(u.val.slot) == Of(v) then to(old(u.val.index)) else old(u.val)
    {
      assert u in Vals(us) && walk.vals[u] == old(u.val);
    }
  }

  ghost function Vals(us: set<Use>): map<Use, Ref>
    reads us
  {
    map u | u in us :: u.val
  }

  ghost function Chains(vs: set<Value>): map<Value, seq<Use>>
    reads vs
  {
    map w | w in vs :: w.chain
  }

  /** A walk over the uses c of v, with all references and lists before it. */
  datatype Walk = Walk(v: Value, c: seq<Use>, index: seq<nat>, to: nat -> Ref, vals: map<Use, Ref>,
    chains: map<Value, seq<Use>>)

  /** The first i uses have been moved. */
  ghost predicate Walked(k: Walk, i: nat, vals: map<Use, Ref>, chains: map<Value, seq<Use>>) {
    && i <= |k.c| == |k.index| && vals.Keys == k.vals.Keys && chains.Keys == k.chains.Keys && k.v in chains
    && (forall j: nat :: j < |k.c| ==> k.c[j] in vals && k.index[j] == k.vals[k.c[j]].index)
    && (forall u :: u in vals ==> vals[u] == if u in k.c[..i] then k.to(k.vals[u].index) else k.vals[u])
    && (forall w :: w in chains ==> chains[w] == Given(k.c, i, k.to, k.index, w) + if w == k.v then k.c[i..]
         else k.chains[w])
  }

  /** c holds the uses of v, each once, and no other list holds them. */
  ghost predicate Started(k: Walk) {
    && NoRepeats(k.c)
    && (forall u :: u in k.vals ==> (k.vals[u].slot == Of(k.v) <==> u in k.c))
    && (forall w, u :: w in k.chains && w != k.v && u in k.chains[w] ==> u !in k.c)
  }

  lemma {:induction false} GivenMembers(c: seq<Use>, n: nat, to: nat -> Ref, index: seq<nat>, w: Value, u: Use)
    requires n <= |c| == |index| && u !in c[..n]
    ensures u !in Given(c, n, to, index, w)
  {
    if n > 0 {
      assert c[..n] == c[..n - 1] + [c[n - 1]];
      GivenMembers(c, n - 1, to, index, w, u);
    }
  }

  lemma GivenNone(c: seq<Use>, to: nat -> Ref, index: seq<nat>)
    requires |index| == |c|
    ensures forall w :: Given(c, 0, to, index, w) == []
  {
  }

  lemma StartOfWalk(k: Walk, vs: set<Value>, us: set<Use>)
    requires Linked(vs, us) && k.v in vs
    requires k == Walk(k.v, k.v.chain, Indices(k.v.chain), k.to, Vals(us), Chains(vs))
    ensures Started(k) && Walked(k, 0, Vals(us), Chains(vs))
    ensures k.v.users == if k.c == [] then null else k.c[0]
  {
    hide Linked, NoRepeats, Walked, Started;
    StartIsStarted(k, vs, us);
    StartIsWalked(k, vs, us);
  }

  lemma StartIsWalked(k: Walk, vs: set<Value>, us: set<Use>)
    requires Linked(vs, us) && k.v in vs
    requires k == Walk(k.v, k.v.chain, Indices(k.v.chain), k.to, Vals(us), Chains(vs))
    ensures Walked(k, 0, Vals(us), Chains(vs))
    ensures k.v.users == if k.c == [] then null else k.c[0]
  {
    hide Linked, NoRepeats, Walked;
    OwnUses(k.v, vs, us);
    WalkStarts(k);
  }

  lemma StartIsStarted(k: Walk, vs: set<Value>, us: set<Use>)
    requires Linked(vs, us) && k.v in vs
    requires k == Walk(k.v, k.v.chain, Indices(k.v.chain), k.to, Vals(us), Chains(vs))
    ensures Started(k)
  {
    hide Linked, NoRepeats;
    OwnUses(k.v, vs, us);
    forall w | w in vs && w != k.v
      ensures forall u :: u in k.chains[w] ==> u !in k.c
    {
      OthersApart(k.v, w, vs, us);
    }
  }

  lemma OthersApart(v: Value, w: Value, vs: set<Value>, us: set<Use>)
    requires Linked(vs, us) && v in vs && w in vs && v != w
    ensures forall u :: u in w.chain ==> u !in v.chain
  {
    assert Owns(v, us) && Owns(w, us);
  }

  lemma OwnUses(v: Value, vs: set<Value>, us: set<Use>)
    requires Linked(vs, us) && v in vs
    ensures forall u :: u in us ==> (u.val.slot == Of(v) <==> u in v.chain)
    ensures forall u :: u in v.chain ==> u in us && u.val.slot == Of(v)
    ensures NoRepeats(v.chain) && v.users == if v.chain == [] then null else v.chain[0]
  {
    hide NoRepeats;
    assert Owns(v, us);
    forall u | u in us
      ensures u.val.slot == Of(v) <==> u in v.chain
    {
      assert Placed(u, vs);
    }
  }

  lemma GivenStep(c: seq<Use>, i: nat, to: nat -> Ref, index: seq<nat>, w: Value, rest: seq<Use>, whole: bool)
    requires i < |c| == |index| && NoRepeats(c)
    requires if whole then rest == c[i..] else c[i] !in rest
    ensures (if to(index[i]).slot == Of(w) then [c[i]] else []) + Minus(Given(c, i, to, index, w) + rest, c[i]) ==
      Given(c, i + 1, to, index, w) + if whole then c[i + 1..] else rest
  {
    hide NoRepeats, Minus;
    Apart(c, i);
    var given := Given(c, i, to, index, w);
    GivenMembers(c, i, to, index, w, c[i]);
    MinusConcat(given, rest, c[i]);
    MinusAbsent(given, c[i]);
    if whole {
      MinusHead(c, i);
    } else {
      MinusAbsent(rest, c[i]);
    }
    assert Given(c, i + 1, to, index, w) == (if to(index[i]).slot == Of(w) then [c[i]] else []) + given;
  }

  lemma MinusHead(c: seq<Use>, i: nat)
    requires i < |c| && NoRepeats(c)
    ensures Minus(c[i..], c[i]) == c[i + 1..]
  {
    hide NoRepeats;
    Apart(c, i);
    assert c[i..][1..] == c[i + 1..];
    MinusAbsent(c[i + 1..], c[i]);
  }

  lemma WalkStarts(k: Walk)
    requires k.v in k.chains && k.c == k.chains[k.v] && |k.index| == |k.c|
    requires forall j: nat :: j < |k.c| ==> k.c[j] in k.vals && k.index[j] == k.vals[k.c[j]].index
    ensures Walked(k, 0, k.vals, k.chains)
  {
    assert k.c[..0] == [] && k.c[0..] == k.c;
    GivenNone(k.c, k.to, k.index);
  }

  /** The use after the ith, when the uses before it were moved. */
  lemma NextInChain(k: Walk, i: nat, vs: set<Value>, us: set<Use>)
    requires Linked(vs, us) && k.v in vs && i < |k.c| && Started(k) && Walked(k, i, Vals(us), Chains(vs))
    ensures k.c[i] in us && k.c[i].val == k.vals[k.c[i]] && k.c[i].val.index == k.index[i]
    ensures k.c[i].next == if i + 1 < |k.c| then k.c[i + 1] else null
  {
    hide NoRepeats;
    Apart(k.c, i);
    assert Owns(k.v, us);
    assert k.v.NodeOk(|Given(k.c, i, k.to, k.index, k.v)|);
  }

  lemma WalkedStep(k: Walk, i: nat, vals: map<Use, Ref>, chains: map<Value, seq<Use>>,
      vals': map<Use, Ref>, chains': map<Value, seq<Use>>)
    requires Walked(k, i, vals, chains) && i < |k.c| && Started(k)
    requires vals'.Keys == vals.Keys && chains'.Keys == chains.Keys
    requires k.c[i] in vals' && vals'[k.c[i]] == k.to(k.index[i])
    requires forall u :: u in vals && u != k.c[i] ==> vals'[u] == vals[u]
    requires forall w :: w in chains ==>
      chains'[w] == (if k.to(k.index[i]).slot == Of(w) then [k.c[i]] else []) + Minus(chains[w], k.c[i])
    ensures Walked(k, i + 1, vals', chains')
  {
    hide NoRepeats, Minus, Given;
    Apart(k.c, i);
    forall w | w in chains'
      ensures chains'[w] == Given(k.c, i + 1, k.to, k.index, w) + if w == k.v then k.c[i + 1..] else k.chains[w]
    {
      GivenStep(k.c, i, k.to, k.index, w, if w == k.v then k.c[i..] else k.chains[w], w == k.v);
    }
  }

  lemma WalkEnds(k: Walk, vals: map<Use, Ref>, chains: map<Value, seq<Use>>)
    requires Walked(k, |k.c|, vals, chains) && Started(k)
    ensures |k.index| == |k.c| && vals.Keys == k.vals.Keys && chains.Keys == k.chains.Keys
    ensures forall u :: u in vals ==> vals[u] == if k.vals[u].slot == Of(k.v) then k.to(k.vals[u].index) else k.vals[u]
    ensures forall w :: w in chains ==>
      chains[w] == Given(k.c, |k.c|, k.to, k.index, w) + if w == k.v then [] else k.chains[w]
  {
    assert k.c[..|k.c|] == k.c && k.c[|k.c|..] == [];
  }

  // ---------------------------------------------------------------- the loops of the source

  /** Value::replaceAllUsesWith on a value: index 0 of it. */
  method ReplaceWithValue(v: Value, r: Value?, ghost vs: set<Value>, ghost us: set<Use>)
    requires Linked(vs, us) && v in vs && (r != null ==> r in vs)
    modifies vs, us
    ensures Linked(vs, us)
    ensures forall u :: u in us ==>
      u.val == if old(u.val.slot) == Of(v) then Ref(if r == null then Null else Of(r), 0) else old(u.val)
  {
    ReplaceUses(v, _ => ToValue(r, 0), vs, us);
  }

  function ToValue(r: Value?, index: nat): Ref {
    Ref(if r == null then Null else Of(r), index)
  }

  /** Value::replaceAllUsesWith on a reference. */
  method ReplaceWithRef(v: Value, r: Ref, ghost vs: set<Value>, ghost us: set<Use>)
    requires Linked(vs, us) && v in vs && (r.slot.Of? ==> r.slot.v in vs)
    modifies vs, us
    ensures Linked(vs, us)
    ensures forall u :: u in us ==> u.val == if old(u.val.slot) == Of(v) then r else old(u.val)
  {
    ReplaceUses(v, _ => r, vs, us);
  }

  /** Inst::replaceAllUsesWith on a value: every use keeps its index. */
  method ReplaceInstWithValue(v: Value, r: Value?, ghost vs: set<Value>, ghost us: set<Use>)
    requires Linked(vs, us) && v in vs && (r != null ==> r in vs)
    modifies vs, us
    ensures Linked(vs, us)
    ensures forall u :: u in us ==>
      u.val == if old(u.val.slot) == Of(v) then Ref(if r == null then Null else Of(r), old(u.val.index)) else old(u.val)
  {
    ReplaceUses(v, (i: nat) => ToValue(r, i), vs, us);
  }

  /** Inst::replaceAllUsesWith on one reference for each result; some may be results of the
      instruction itself. */
  method ReplaceInstWithRefs(v: Value, r: seq<Ref>, ghost vs: set<Value>, ghost us: set<Use>)
    requires Linked(vs, us) && v in vs && forall i :: 0 <= i < |r| && r[i].slot.Of? ==> r[i].slot.v in vs
    requires forall u :: u in us && u.val.slot == Of(v) ==> u.val.index < |r|
    modifies vs, us
    ensures Linked(vs, us)
    ensures forall u :: u in us && old(u.val.slot) == Of(v) ==> u.val == r[old(u.val.index)]
    ensures forall u :: u in us && old(u.val.slot) != Of(v) ==> u.val == old(u.val)
  {
    ReplaceUses(v, (i: nat) => if i < |r| then r[i] else Ref(Null, 0), vs, us);
    forall u | u in us && old(u.val.slot) == Of(v)
      ensures u.val == r[old(u.val.index)]
    {
    }
  }

  /** Value::~Value. */
  method DestroyValue(v: Value, ghost vs: set<Value>, ghost us: set<Use>)
    requires Linked(vs, us) && v in vs
    modifies vs, us
    ensures Linked(vs - {v}, us)
    ensures forall u :: u in us ==> u.val == if old(u.val.slot) == Of(v) then Ref(Null, 0) else old(u.val)
  {
    ReplaceWithValue(v, null, vs, us);
    WithoutValue(v, vs, us);
  }

  lemma WithoutValue(v: Value, vs: set<Value>, us: set<Use>)
    requires Linked(vs, us) && forall u :: u in us ==> u.val.slot != Of(v)
    ensures Linked(vs - {v}, us)
  {
    forall u | u in us
      ensures Placed(u, vs - {v})
    {
      assert Placed(u, vs);
    }
  }

  /** Counts the uses by walking the list. */
  method UseSize(v: Value, ghost vs: set<Value>, ghost us: set<Use>) returns (n: nat)
    requires Linked(vs, us) && v in vs
    ensures n == |v.chain|
    ensures n == |set u | u in us && u.val.slot == Of(v)|
  {
    n := 0;
    var it := v.users;
    assert Owns(v, us);
    while it != null
      invariant n <= |v.chain| && it == if n < |v.chain| then v.chain[n] else null
      decreases |v.chain| - n
    {
      assert v.NodeOk(n);
      it := it.next;
      n := n + 1;
    }
    OwnUses(v, vs, us);
    ChainSize(v.chain, set u | u in us && u.val.slot == Of(v));
  }

  lemma {:induction false} ChainSize(c: seq<Use>, s: set<Use>)
    requires NoRepeats(c) && (forall u :: u in c ==> u in s) && (forall u :: u in s ==> u in c)
    ensures |s| == |c|
  {
    if c == [] {
      assert s == {};
    } else {
      var u := c[0];
      assert u !in c[1..];
      assert NoRepeats(c[1..]);
      ChainSize(c[1..], s - {u});
    }
  }

  // ---------------------------------------------------------------- operands

  /** A value with operands. */
  class User {
    const value: Value
    var uses: seq<Use>

    /** Every operand starts empty. */
    constructor (value: Value, numOps: nat, ghost vs: set<Value>, ghost us: set<Use>)
      requires Linked(vs, us)
      ensures this.value == value && |uses| == numOps && Operands(us + set u | u in uses)
      ensures Linked(vs, us + set u | u in uses) && fresh(set u | u in uses)
      ensures forall i :: 0 <= i < numOps ==> uses[i].val == Ref(Null, 0)
    {
      this.value, uses := value, [];
      new;
      uses := EmptyUses(value, numOps, vs, us);
    }

    /** Keeps the first operands and adds empty ones; every use is allocated anew. */
    method ResizeUses(n: nat, ghost vs: set<Value>, ghost us: set<Use>)
      requires Linked(vs, us) && Operands(us)
      modifies this, vs, us
      ensures |uses| == n && Operands(us - Set(old(uses)) + Set(uses)) && fresh(Set(uses))
      ensures Linked(vs, us - Set(old(uses)) + Set(uses))
      ensures forall i :: 0 <= i < n ==> uses[i].val == if i < |old(uses)| then old(uses[i].val) else Ref(Null, 0)
      ensures forall u :: u in us && u !in old(uses) ==> u.val == old(u.val)
    {
      if n == 0 {
        ClearUses(vs, us);
        DropUses(vs, us, Set(uses));
        uses := [];
        assert us - Set(old(uses)) + Set(uses) == us - Set(old(uses));
      } else {
        var newUses := TransferUses(n, vs, us);
        ghost var live := us - Set(uses) + Set(newUses);
        var rest := EmptyUses(value, n - |newUses|, vs, live);
        uses := newUses + rest;
        assert live + Set(rest) == us - Set(old(uses)) + Set(uses);
      }
    }

    /** Empties every operand. */
    method ClearUses(ghost vs: set<Value>, ghost us: set<Use>)
      requires Linked(vs, us) && Operands(us)
      modifies vs, us
      ensures Linked(vs, us)
      ensures forall u :: u in uses ==> u.val == Ref(Null, 0)
      ensures forall u :: u in us && u !in uses ==> u.val == old(u.val)
    {
      hide Linked;
      for i := 0 to |uses|
        invariant Linked(vs, us)
        invariant forall j :: 0 <= j < i ==> uses[j].val == Ref(Null, 0)
        invariant forall u :: u in us && u !in uses ==> u.val == old(u.val)
      {
        uses[i].Assign(Ref(Null, 0), vs, us);
      }
    }

    /** Replaces the operands by new ones, of which there are at most n. */
    method TransferUses(n: nat, ghost vs: set<Value>, ghost us: set<Use>) returns (newUses: seq<Use>)
      requires Linked(vs, us) && Operands(us)
      modifies vs, us
      ensures |newUses| == (if n < |uses| then n else |uses|) && NoRepeats(newUses) && fresh(Set(newUses))
      ensures Linked(vs, us - Set(uses) + Set(newUses))
      ensures forall i :: 0 <= i < |newUses| ==> newUses[i].val == old(uses[i].val)
      ensures forall u :: u in us && u !in uses ==> u.val == old(u.val)
    {
      hide Linked, Set, NoRepeats;
      newUses := [];
      ghost var live := us;
      NoneTransferred(us, uses);
      for i := 0 to |uses|
        invariant Linked(vs, live) && live == us - Set(uses[..i]) + Set(newUses)
        invariant |newUses| == (if n < i then n else i) && NoRepeats(newUses) && fresh(Set(newUses))
        invariant forall u :: u in newUses ==> u in Set(newUses)
        invariant forall j :: 0 <= j < |newUses| ==> newUses[j].val == old(uses[j].val)
        invariant forall u :: u in us ==> u.val == old(u.val)
      {
        Apart(uses, i);
        SetAppend(uses[..i], uses[i]);
        StillLive(us, uses, i, newUses);
        var moved := TransferUse(i, n, vs, live);
        SetConcat(newUses, moved);
        newUses := newUses + moved;
        live := live - {uses[i]} + Set(moved);
      }
      assert uses[..|uses|] == uses;
    }

    /** Unlinks operand i and, if it is kept, links a new use of the same reference. */
    method TransferUse(i: nat, n: nat, ghost vs: set<Value>, ghost live: set<Use>) returns (moved: seq<Use>)
      requires Linked(vs, live) && i < |uses| && uses[i] in live
      modifies vs, live
      ensures |moved| == (if i < n then 1 else 0) && fresh(Set(moved)) && Linked(vs, live - {uses[i]} + Set(moved))
      ensures i < n ==> moved[0].val == old(uses[i].val)
      ensures forall u :: u in live ==> u.val == old(u.val)
    {
      hide Linked;
      UseInside(uses[i], vs, live);
      uses[i].Remove(vs, live);
      moved := [];
      if i < n {
        if uses[i].val.slot.Of? {
          HeadInside(uses[i].val.slot.v, vs, live - {uses[i]});
        }
        var use := new Use(uses[i].val, value, vs, live - {uses[i]});
        moved := [use];
      }
      assert live - {uses[i]} + Set(moved) == if i < n then live - {uses[i]} + {moved[0]} else live - {uses[i]};
    }

    /** User::~User and, for the value itself, Value::~Value. */
    method Destroy(ghost vs: set<Value>, ghost us: set<Use>)
      requires Linked(vs, us) && Operands(us) && value in vs
      modifies vs, us
      ensures Linked(vs - {value}, us - Set(uses))
      ensures forall u :: u in us && u !in uses ==>
        u.val == if old(u.val.slot) == Of(value) then Ref(Null, 0) else old(u.val)
    {
      ClearUses(vs, us);
      DropUses(vs, us, Set(uses));
      DestroyValue(value, vs, us - Set(uses));
    }

    /** The operands are live and distinct. */
    ghost predicate Operands(us: set<Use>)
      reads this
    {
      NoRepeats(uses) && forall u :: u in uses ==> u in us
    }
  }

  ghost function Set(s: seq<Use>): set<Use> {
    set u | u in s
  }

  lemma SetAppend(s: seq<Use>, u: Use)
    ensures Set(s + [u]) == Set(s) + {u}
    ensures forall x :: x in s + [u] ==> x in Set(s + [u])
    ensures NoRepeats(s) && u !in Set(s) ==> NoRepeats(s + [u])
  {
  }

  lemma SetConcat(s: seq<Use>, t: seq<Use>)
    requires |t| <= 1
    ensures Set(s + t) == Set(s) + Set(t)
    ensures forall x :: x in s + t ==> x in Set(s + t)
    ensures NoRepeats(s) && Set(s) !! Set(t) ==> NoRepeats(s + t)
  {
    if |t| == 1 {
      assert s + t == s + [t[0]];
      SetAppend(s, t[0]);
    } else {
      assert s + t == s;
    }
  }

  lemma NoneTransferred(us: set<Use>, uses: seq<Use>)
    ensures us - Set(uses[..0]) + Set([]) == us && NoRepeats([]) && Set([]) == {}
  {
  }

  lemma StillLive(us: set<Use>, uses: seq<Use>, i: nat, newUses: seq<Use>)
    requires i < |uses| && uses[i] in us && uses[i] !in uses[..i]
    requires Set(newUses) !! us
    ensures uses[i] in us - Set(uses[..i]) + Set(newUses)
    ensures us - Set(uses[..i]) + Set(newUses) - {uses[i]} == us - (Set(uses[..i]) + {uses[i]}) + Set(newUses)
  {
  }

  /** Uses that point nowhere can be freed. */
  lemma DropUses(vs: set<Value>, us: set<Use>, d: set<Use>)
    requires Linked(vs, us) && forall u :: u in d && u in us ==> !u.val.slot.Of?
    ensures Linked(vs, us - d)
  {
    forall v | v in vs
      ensures Owns(v, us - d)
    {
      assert Owns(v, us);
    }
  }

  /** Empty uses for new operands. */
  method EmptyUses(user: Value, n: nat, ghost vs: set<Value>, ghost us: set<Use>) returns (fresh_: seq<Use>)
    requires Linked(vs, us)
    ensures |fresh_| == n && NoRepeats(fresh_) && fresh(set u | u in fresh_)
    ensures forall i :: 0 <= i < n ==> fresh_[i].val == Ref(Null, 0)
    ensures Linked(vs, us + set u | u in fresh_)
  {
    hide Linked;
    fresh_ := [];
    assert us + (set u | u in fresh_) == us;
    for i := 0 to n
      invariant |fresh_| == i && NoRepeats(fresh_) && fresh(set u | u in fresh_)
      invariant forall j :: 0 <= j < i ==> fresh_[j].val == Ref(Null, 0)
      invariant Linked(vs, us + set u | u in fresh_)
    {
      ghost var before := set u | u in fresh_;
      var use := new Use(Ref(Null, 0), user, vs, us + before);
      fresh_ := fresh_ + [use];
      assert us + (set u | u in fresh_) == us + before + {use};
    }
  }
}
