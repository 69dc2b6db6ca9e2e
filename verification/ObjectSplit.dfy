/** Splitting an object into one atom for each accessed location (passes/object_split.cpp). */
module ObjectSplit {
  import opened Options

  /** Integers have 1, 2, 4 or 8 bytes and expressions 4 or 8. */
  datatype Item = Integer(width: nat, value: int) | Float64(bits: int) | Address(width: nat, expr: nat) |
    Space(n: nat) | Str(s: seq<int>)

  datatype Byte = Raw(b: int) | OfExpr(expr: nat, i: nat)

  /** The size of an item in bytes. */
  function Size(item: Item): nat {
    match item
    case Integer(w, _) => w
    case Float64(_) => 8
    case Address(w, _) => w
    case Space(n) => n
    case Str(s) => |s|
  }

  function Pow256(i: nat): (p: nat)
    ensures p > 0
  {
    if i == 0 then 1 else 256 * Pow256(i - 1)
  }

  /** Byte i of an integer, lowest first. */
  function ByteOf(v: int, i: nat): int {
    (v / Pow256(i)) % 256
  }

  function Bytes(item: Item): (s: seq<Byte>)
    ensures |s| == Size(item)
  {
    match item
    case Integer(w, v) => seq(w, i requires 0 <= i < w => Raw(ByteOf(v, i)))
    case Float64(v) => seq(8, i requires 0 <= i < 8 => Raw(ByteOf(v, i)))
    case Address(w, e) => seq(w, i requires 0 <= i < w => OfExpr(e, i))
    case Space(n) => seq(n, _ => Raw(0))
    case Str(s) => seq(|s|, i requires 0 <= i < |s| => Raw(s[i]))
  }

  function AtomBytes(items: seq<Item>): seq<Byte> {
    if items == [] then [] else AtomBytes(items[..|items| - 1]) + Bytes(items[|items| - 1])
  }

  /** Where item j starts. */
  function Start(items: seq<Item>, j: nat): (n: nat)
    requires j <= |items|
  {
    |AtomBytes(items[..j])|
  }

  lemma StartNext(items: seq<Item>, j: nat)
    requires j < |items|
    ensures AtomBytes(items[..j + 1]) == AtomBytes(items[..j]) + Bytes(items[j])
    ensures Start(items, j + 1) == Start(items, j) + Size(items[j])
  {
    assert items[..j + 1][..j] == items[..j];
  }

  lemma {:induction false} PrefixBytes(items: seq<Item>, j: nat)
    requires j <= |items|
    ensures Start(items, j) <= |AtomBytes(items)| && AtomBytes(items[..j]) == AtomBytes(items)[..Start(items, j)]
    decreases |items| - j
  {
    if j == |items| {
      assert items[..j] == items;
    } else {
      PrefixBytes(items, j + 1);
      StartNext(items, j);
      assert AtomBytes(items[..j]) == AtomBytes(items[..j + 1])[..Start(items, j)];
    }
  }

  /** Item j holds the bytes of the atom from its start on. */
  lemma ItemBytes(items: seq<Item>, j: nat)
    requires j < |items|
    ensures Start(items, j + 1) == Start(items, j) + Size(items[j]) <= |AtomBytes(items)|
    ensures Bytes(items[j]) == AtomBytes(items)[Start(items, j)..Start(items, j + 1)]
  {
    PrefixBytes(items, j + 1);
    StartNext(items, j);
    assert Bytes(items[j]) == AtomBytes(items[..j + 1])[Start(items, j)..];
  }

  lemma AppendItem(items: seq<Item>, item: Item)
    ensures AtomBytes(items + [item]) == AtomBytes(items) + Bytes(item)
  {
    assert (items + [item])[..|items|] == items;
  }

  lemma {:induction false} StartGrows(items: seq<Item>, i: nat, j: nat)
    requires i <= j <= |items|
    ensures Start(items, i) <= Start(items, j)
    decreases j - i
  {
    if i < j {
      StartGrows(items, i, j - 1);
      StartNext(items, j - 1);
    }
  }

  // ---------------------------------------------------------------- accesses

  datatype Access = Access(off: int, size: nat)

  ghost predicate Disjoint(a: Access, b: Access) {
    a.off + a.size <= b.off || b.off + b.size <= a.off
  }

  /** Whether two accesses overlap. */
  method Overlaps(uses: seq<Access>) returns (overlaps: bool)
    ensures overlaps <==> exists i, j :: 0 <= i < j < |uses| && !Disjoint(uses[i], uses[j])
  {
    overlaps := false;
    for i := 0 to |uses|
      invariant !overlaps
      invariant forall k, l :: 0 <= k < i && k < l < |uses| ==> Disjoint(uses[k], uses[l])
    {
      for j := i + 1 to |uses|
        invariant !overlaps
        invariant forall l :: i < l < j ==> Disjoint(uses[i], uses[l])
      {
        var ie := uses[i].off + uses[i].size;
        var je := uses[j].off + uses[j].size;
        if ie <= uses[j].off || je <= uses[i].off {
          continue;
        }
        overlaps := true;
        break;
      }
      if overlaps {
        break;
      }
    }
  }

  // ---------------------------------------------------------------- the cursor

  /** Items that can be cut. */
  predicate Splits(item: Item) {
    item.Space? || item.Str?
  }

  /** The offset is that of the passed items plus the offset into the current one. */
  ghost predicate Cursor(items: seq<Item>, it: nat, itOff: nat, startOff: int) {
    && it <= |items| && startOff == Start(items, it) + itOff
    && (itOff > 0 ==> it < |items| && itOff < Size(items[it]))
  }

  lemma CursorInside(items: seq<Item>, it: nat, itOff: nat, startOff: int)
    requires Cursor(items, it, itOff, startOff) && startOff < |AtomBytes(items)|
    ensures it < |items|
  {
    StartEnd(items);
  }

  lemma StartEnd(items: seq<Item>)
    ensures Start(items, |items|) == |AtomBytes(items)|
  {
    assert items[..|items|] == items;
  }

  /** An access takes part of a number or of an address. */
  ghost predicate CutBy(items: seq<Item>, j: nat, a: Access) {
    && j < |items| && (items[j].Integer? || items[j].Float64? || items[j].Address?)
    && Start(items, j) < a.off + a.size && a.off < Start(items, j + 1)
    && !(a.off <= Start(items, j) && Start(items, j + 1) <= a.off + a.size)
  }

  /** Moves the cursor forward to an offset inside the atom. */
  method Advance(items: seq<Item>, off: nat, it0: nat, itOff0: nat, startOff0: nat)
      returns (it: nat, itOff: nat, startOff: nat)
    requires Cursor(items, it0, itOff0, startOff0) && startOff0 <= off < |AtomBytes(items)|
    ensures Cursor(items, it, itOff, startOff) && startOff == off
  {
    hide AtomBytes, Start, Size;
    it, itOff, startOff := it0, itOff0, startOff0;
    while off > startOff
      invariant Cursor(items, it, itOff, startOff) && startOff <= off
      decreases |items| - it, off - startOff
    {
      CursorInside(items, it, itOff, startOff);
      StartNext(items, it);
      var left := Size(items[it]) - itOff;
      if startOff + left <= off {
        startOff := startOff + left;
        itOff := 0;
        it := it + 1;
      } else {
        var diff := off - startOff;
        startOff := off;
        itOff := itOff + diff;
      }
    }
  }

  lemma CursorStart(items: seq<Item>)
    ensures Cursor(items, 0, 0, 0)
  {
  }

  /** The part of an item from a on. */
  function Part(item: Item, a: nat, n: nat): (p: Item)
    requires Splits(item) && a + n <= Size(item)
    ensures Size(p) == n && Bytes(p) == Bytes(item)[a..a + n]
  {
    match item
    case Space(_) => Space(n)
    case Str(s) => Str(s[a..a + n])
  }

  lemma PartBytes(items: seq<Item>, j: nat, a: nat, n: nat)
    requires j < |items| && Splits(items[j]) && a + n <= Size(items[j])
    ensures Start(items, j) + a + n <= |AtomBytes(items)|
    ensures Bytes(Part(items[j], a, n)) == AtomBytes(items)[Start(items, j) + a..Start(items, j) + a + n]
  {
    hide AtomBytes, Start, Bytes;
    ItemBytes(items, j);
    SliceOfSlice(AtomBytes(items), Start(items, j), Start(items, j + 1), a, n);
  }

  lemma SliceOfSlice(s: seq<Byte>, from: nat, to: nat, a: nat, n: nat)
    requires from <= to <= |s| && from + a + n <= to
    ensures s[from..to][a..a + n] == s[from + a..from + a + n]
  {
    var x, y := s[from..to][a..a + n], s[from + a..from + a + n];
    forall i | 0 <= i < n
      ensures x[i] == y[i]
    {
      assert x[i] == s[from..to][a + i] == s[from + a + i];
    }
  }

  lemma SlicesJoin(s: seq<Byte>, off: nat, from: nat, to: nat)
    requires off <= from <= to <= |s|
    ensures s[off..to] == s[off..from] + s[from..to]
  {
  }

  lemma Appended(items: seq<Item>, item: Item, all: seq<Byte>, off: nat, from: nat, to: nat)
    requires off <= from <= to <= |all| && AtomBytes(items) == all[off..from] && Bytes(item) == all[from..to]
    ensures AtomBytes(items + [item]) == all[off..to]
  {
    hide AtomBytes, Bytes;
    AppendItem(items, item);
    SlicesJoin(all, off, from, to);
  }

  /** Copies the bytes of an access; fails at an item that would have to be cut and cannot. */
  method Populate(items: seq<Item>, a: Access, it0: nat, itOff0: nat, startOff0: nat)
      returns (atom: Option<seq<Item>>, it: nat, itOff: nat, startOff: nat)
    requires Cursor(items, it0, itOff0, startOff0) && startOff0 == a.off && a.off + a.size <= |AtomBytes(items)|
    requires a.size > 0
    ensures atom.None? <==> exists j :: CutBy(items, j, a)
    ensures atom.Some? ==> AtomBytes(atom.value) == AtomBytes(items)[a.off..a.off + a.size]
    ensures atom.Some? ==> Cursor(items, it, itOff, startOff) && startOff == a.off + a.size
  {
    hide AtomBytes, Start, Bytes;
    var newItems: seq<Item> := [];
    it, itOff, startOff := it0, itOff0, startOff0;
    var size: nat := a.size;
    NoneCutBefore(items, it, itOff, a);
    NoBytes();
    while size > 0
      invariant startOff + size == a.off + a.size <= |AtomBytes(items)| && 0 <= a.off <= startOff
      invariant Cursor(items, it, itOff, startOff)
      invariant itOff > 0 ==> startOff == a.off || Splits(items[it])
      invariant AtomBytes(newItems) == AtomBytes(items)[a.off..startOff]
      invariant forall j :: 0 <= j < it ==> !CutBy(items, j, a)
      decreases size, |items| - it
    {
      CursorInside(items, it, itOff, startOff);
      StartNext(items, it);
      var itSize := Size(items[it]);
      if itOff + size >= itSize {
        if itOff == 0 {
          ItemBytes(items, it);
          Appended(newItems, items[it], AtomBytes(items), a.off, startOff, startOff + itSize);
          newItems := newItems + [items[it]];
          startOff := startOff + itSize;
          size := size - itSize;
          it := it + 1;
        } else {
          var left := itSize - itOff;
          if !Splits(items[it]) {
            assert CutBy(items, it, a);
            return None, it, itOff, startOff;
          }
          PartBytes(items, it, itOff, left);
          Appended(newItems, Part(items[it], itOff, left), AtomBytes(items), a.off, startOff, startOff + left);
          newItems := newItems + [Part(items[it], itOff, left)];
          startOff := startOff + left;
          size := size - left;
          itOff := 0;
          it := it + 1;
        }
      } else {
        if !Splits(items[it]) {
          assert CutBy(items, it, a);
          return None, it, itOff, startOff;
        }
        PartBytes(items, it, itOff, size);
        Appended(newItems, Part(items[it], itOff, size), AtomBytes(items), a.off, startOff, startOff + size);
        newItems := newItems + [Part(items[it], itOff, size)];
        startOff := startOff + size;
        itOff := itOff + size;
        size := 0;
      }
    }
    NoneCutAfter(items, it, itOff, a);
    atom := Some(newItems);
  }

  lemma NoBytes()
    ensures AtomBytes([]) == []
  {
  }

  lemma NoneCutBefore(items: seq<Item>, it: nat, itOff: nat, a: Access)
    requires Cursor(items, it, itOff, a.off)
    ensures forall j :: 0 <= j < it ==> !CutBy(items, j, a)
  {
    forall j: nat | j < it
      ensures !CutBy(items, j, a)
    {
      StartGrows(items, j + 1, it);
    }
  }

  lemma NoneCutAfter(items: seq<Item>, it: nat, itOff: nat, a: Access)
    requires Cursor(items, it, itOff, a.off + a.size) && a.size > 0 && (itOff > 0 ==> Splits(items[it]))
    ensures forall j :: it <= j < |items| ==> !CutBy(items, j, a)
  {
    forall j: nat | it <= j < |items|
      ensures !CutBy(items, j, a)
    {
      StartGrows(items, if j == it then it else it + 1, j);
      StartNext(items, it);
    }
  }

  /** Sorted, disjoint accesses inside the atom. */
  ghost predicate Splittable(items: seq<Item>, uses: seq<Access>) {
    && (forall i :: 0 <= i < |uses| ==>
         uses[i].size > 0 && 0 <= uses[i].off && uses[i].off + uses[i].size <= |AtomBytes(items)|)
    && (forall i, j :: 0 <= i < j < |uses| ==> uses[i].off <= uses[j].off && Disjoint(uses[i], uses[j]))
  }

  /** The new atom has exactly the bytes of the location. */
  ghost predicate HasBytes(atom: seq<Item>, items: seq<Item>, a: Access)
    requires 0 <= a.off && a.off + a.size <= |AtomBytes(items)|
  {
    AtomBytes(atom) == AtomBytes(items)[a.off..a.off + a.size]
  }

  /** Splits the object: each new atom has exactly the bytes of its location.  It fails
      exactly when some access takes part of a number or of an address. */
  method Split(items: seq<Item>, uses: seq<Access>) returns (atoms: Option<seq<seq<Item>>>)
    requires Splittable(items, uses)
    ensures atoms.None? <==> exists i, j :: 0 <= i < |uses| && CutBy(items, j, uses[i])
    ensures atoms.Some? ==> |atoms.value| == |uses|
    ensures atoms.Some? ==> forall i :: 0 <= i < |uses| ==> HasBytes(atoms.value[i], items, uses[i])
  {
    hide AtomBytes, Start, CutBy;
    var out := [];
    var it, itOff, startOff := 0, 0, 0;
    CursorStart(items);
    for k := 0 to |uses|
      invariant |out| == k && Cursor(items, it, itOff, startOff)
      invariant k > 0 ==> startOff == uses[k - 1].off + uses[k - 1].size
      invariant k == 0 ==> startOff == 0
      invariant forall i :: 0 <= i < k ==> HasBytes(out[i], items, uses[i])
      invariant forall i, j :: 0 <= i < k ==> !CutBy(items, j, uses[i])
    {
      assert k > 0 ==> Disjoint(uses[k - 1], uses[k]);
      it, itOff, startOff := Advance(items, uses[k].off, it, itOff, startOff);
      var atom;
      atom, it, itOff, startOff := Populate(items, uses[k], it, itOff, startOff);
      if atom.None? {
        return None;
      }
      out := out + [atom.value];
    }
    atoms := Some(out);
  }
}
