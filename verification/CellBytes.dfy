/** Splitting a stack object into cells (the overlap test in passes/mem_to_reg.cpp), and what
    that means for its bytes. */
module CellBytes {
  import opened DeadPhis
  import opened Options

  // ---------------------------------------------------------------- cells

  ghost predicate Apart(size: nat -> nat, u: (int, nat), v: (int, nat)) {
    u.0 + size(u.1) <= v.0 || v.0 + size(v.1) <= u.0
  }

  /** Any two accesses touch the same cell or no common byte, and none lies below the object. */
  ghost predicate AreCells(size: nat -> nat, uses: map<User, (int, nat)>) {
    forall u, v :: u in uses && v in uses ==>
      uses[u].0 >= 0 && (if uses[u].0 == uses[v].0 then uses[u].1 == uses[v].1 else Apart(size, uses[u], uses[v]))
  }

  ghost predicate HasUse(uses: map<User, (int, nat)>, done: set<User>, o: int, ty: nat) {
    exists u: User :: u in done && u in uses && uses[u] == (o, ty)
  }

  /** The offsets met among some uses, with their types. */
  ghost predicate OffsetsOf(uses: map<User, (int, nat)>, done: set<User>, offsets: map<int, nat>) {
    && (forall u :: u in done ==> u in uses && uses[u].0 in offsets && offsets[uses[u].0] == uses[u].1)
    && (forall o: int :: o in offsets ==> HasUse(uses, done, o, offsets[o]))
  }

  /** The overlap test: infers a type for each offset and looks for others inside it. */
  method Overlaps(size: nat -> nat, uses: map<User, (int, nat)>) returns (overlap: bool, offsets: map<int, nat>)
    requires forall ty: nat :: size(ty) > 0
    ensures overlap <==> !AreCells(size, uses)
    ensures !overlap ==> OffsetsOf(uses, uses.Keys, offsets)
  {
    overlap, offsets := false, map[];
    var rest := uses.Keys;
    while rest != {}
      invariant rest <= uses.Keys && OffsetsOf(uses, uses.Keys - rest, offsets) && !overlap
      decreases rest
    {
      var u :| u in rest;
      if uses[u].0 in offsets {
        if offsets[uses[u].0] != uses[u].1 {
          assert HasUse(uses, uses.Keys - rest, uses[u].0, offsets[uses[u].0]);
          assert !AreCells(size, uses);
          return true, offsets;
        }
      } else {
        offsets := offsets[uses[u].0 := uses[u].1];
      }
      assert uses.Keys - (rest - {u}) == (uses.Keys - rest) + {u};
      rest := rest - {u};
    }
    assert uses.Keys - rest == uses.Keys;
    var left := offsets.Items;
    while left != {}
      invariant left <= offsets.Items
      invariant forall o: int :: o in offsets && (o, offsets[o]) !in left ==> ClearCell(size, offsets, o)
      decreases left
    {
      var item :| item in left;
      var o := item.0;
      if o < 0 {
        assert HasUse(uses, uses.Keys, o, offsets[o]);
        assert !AreCells(size, uses);
        return true, offsets;
      }
      for i := 1 to size(offsets[o])
        invariant forall p: int :: o < p < o + i ==> p !in offsets
      {
        if o + i in offsets {
          InsideIsNotApart(size, uses, offsets, o, o + i);
          assert !AreCells(size, uses);
          return true, offsets;
        }
      }
      left := left - {item};
    }
    ClearAreCells(size, uses, offsets);
  }

  lemma InsideIsNotApart(size: nat -> nat, uses: map<User, (int, nat)>, offsets: map<int, nat>, o: int, p: int)
    requires OffsetsOf(uses, uses.Keys, offsets) && o in offsets && p in offsets && o < p < o + size(offsets[o])
    requires size(offsets[p]) > 0
    ensures !AreCells(size, uses)
  {
    var v: User :| v in uses && uses[v] == (o, offsets[o]);
    var w: User :| w in uses && uses[w] == (p, offsets[p]);
    assert !Apart(size, uses[v], uses[w]);
  }

  ghost predicate ClearCell(size: nat -> nat, offsets: map<int, nat>, o: int)
    requires o in offsets
  {
    o >= 0 && forall p: int :: o < p < o + size(offsets[o]) ==> p !in offsets
  }

  lemma ClearAreCells(size: nat -> nat, uses: map<User, (int, nat)>, offsets: map<int, nat>)
    requires OffsetsOf(uses, uses.Keys, offsets) && forall o: int :: o in offsets ==> ClearCell(size, offsets, o)
    ensures AreCells(size, uses)
  {
    forall u, v | u in uses && v in uses && uses[u].0 != uses[v].0
      ensures Apart(size, uses[u], uses[v])
    {
      var a, b := uses[u].0, uses[v].0;
      assert ClearCell(size, offsets, a) && ClearCell(size, offsets, b);
      assert a in offsets && b in offsets;
    }
  }

  // ---------------------------------------------------------------- cells behave like registers

  /** Stores a value, given by its bytes, at an address. */
  function StoreBytes(m: map<int, int>, addr: int, v: seq<int>): map<int, int>
    decreases |v|
  {
    if v == [] then m else StoreBytes(m[addr := v[0]], addr + 1, v[1..])
  }

  lemma {:induction false} StoredByte(m: map<int, int>, addr: int, v: seq<int>, a: int)
    ensures var m' := StoreBytes(m, addr, v);
      if addr <= a < addr + |v| then a in m' && m'[a] == v[a - addr]
      else (a in m' <==> a in m) && (a in m ==> m'[a] == m[a])
    decreases |v|
  {
    if v != [] {
      StoredByte(m[addr := v[0]], addr + 1, v[1..], a);
    }
  }

  /** The bytes at an address, if all are there. */
  function LoadBytes(m: map<int, int>, addr: int, n: nat): Option<seq<int>> {
    if forall a: int :: addr <= a < addr + n ==> a in m then Some(seq(n, i requires 0 <= i < n => m[addr + i]))
      else None
  }

  /** Among accesses that are cells, a load sees the value last stored to its own cell and is
      not affected by a store to any other. */
  lemma CellsAreRegisters(size: nat -> nat, uses: map<User, (int, nat)>, s: User, l: User, m: map<int, int>, base: int,
                          v: seq<int>)
    requires AreCells(size, uses) && s in uses && l in uses && |v| == size(uses[s].1)
    ensures LoadBytes(StoreBytes(m, base + uses[s].0, v), base + uses[l].0, size(uses[l].1)) ==
      if uses[s].0 == uses[l].0 then Some(v) else LoadBytes(m, base + uses[l].0, size(uses[l].1))
  {
    var so, lo, n := base + uses[s].0, base + uses[l].0, size(uses[l].1);
    var m' := StoreBytes(m, so, v);
    if uses[s].0 == uses[l].0 {
      forall a: int | lo <= a < lo + n
        ensures a in m' && m'[a] == v[a - lo]
      {
        StoredByte(m, so, v, a);
      }
      assert LoadBytes(m', lo, n).value == v;
    } else {
      assert Apart(size, uses[s], uses[l]);
      forall a: int | lo <= a < lo + n
        ensures (a in m' <==> a in m) && (a in m ==> m'[a] == m[a])
      {
        StoredByte(m, so, v, a);
      }
      SameLoad(m, m', lo, n);
    }
  }

  lemma SameLoad(m: map<int, int>, m': map<int, int>, addr: int, n: nat)
    requires forall a: int :: addr <= a < addr + n ==> (a in m' <==> a in m) && (a in m ==> m'[a] == m[a])
    ensures LoadBytes(m', addr, n) == LoadBytes(m, addr, n)
  {
    if forall a: int :: addr <= a < addr + n ==> a in m {
      assert LoadBytes(m', addr, n).value == LoadBytes(m, addr, n).value;
    }
  }

  // ---------------------------------------------------------------- sequences of accesses

  /** An access in a run: the bytes v are stored, or something is loaded. */
  datatype Access = Stored(u: User, v: seq<int>) | Loaded(u: User)

  /** Every access is one of the uses and stores as many bytes as its type has. */
  ghost predicate AreUses(size: nat -> nat, uses: map<User, (int, nat)>, h: seq<Access>) {
    forall i :: 0 <= i < |h| ==> h[i].u in uses && (h[i].Stored? ==> |h[i].v| == size(uses[h[i].u].1))
  }

  /** The memory after a sequence of accesses to the object at base. */
  function After(uses: map<User, (int, nat)>, base: int, h: seq<Access>, m: map<int, int>): map<int, int> {
    if h == [] then m else
      var a, before := h[|h| - 1], After(uses, base, h[..|h| - 1], m);
      if a.Stored? && a.u in uses then StoreBytes(before, base + uses[a.u].0, a.v) else before
  }

  /** The bytes last stored to the cell at offset o. */
  function LastStored(uses: map<User, (int, nat)>, h: seq<Access>, o: int): Option<seq<int>> {
    if h == [] then None else
      var a := h[|h| - 1];
      if a.Stored? && a.u in uses && uses[a.u].0 == o then Some(a.v) else LastStored(uses, h[..|h| - 1], o)
  }

  /** After any sequence of accesses that are cells, a load sees the bytes last stored to its
      own cell, or what was there before the first of them. */
  lemma {:induction false} LoadsSeeLastStore(size: nat -> nat, uses: map<User, (int, nat)>, h: seq<Access>, l: User,
                                             m: map<int, int>, base: int)
    requires AreCells(size, uses) && AreUses(size, uses, h) && l in uses
    ensures LoadBytes(After(uses, base, h, m), base + uses[l].0, size(uses[l].1)) ==
      match LastStored(uses, h, uses[l].0)
      case Some(v) => Some(v)
      case None => LoadBytes(m, base + uses[l].0, size(uses[l].1))
  {
    hide LoadBytes, StoreBytes, AreCells;
    if h != [] {
      LoadsSeeLastStore(size, uses, h[..|h| - 1], l, m, base);
      var a := h[|h| - 1];
      if a.Stored? {
        CellsAreRegisters(size, uses, a.u, l, After(uses, base, h[..|h| - 1], m), base, a.v);
      }
    }
  }
}
