/** Merging adjacent atoms of an object (passes/atom_simplify.cpp), under the layout rule of
    emitter/data_printer.cpp: atoms in order, each padded with zeros to its alignment. */
module AtomSimplify {
  import opened Arith
  import opened Options
  import opened ObjectSplit

  datatype Atom = Atom(name: nat, align: Option<nat>, local: bool, items: seq<Item>)

  datatype Ref = Ref(symbol: nat, offset: int)

  // ---------------------------------------------------------------- layout

  ghost predicate PowerOfTwo(a: nat) {
    a == 1 || (a % 2 == 0 && a > 0 && PowerOfTwo(a / 2))
  }

  /** The distance to the next multiple of align. */
  function Padding(addr: nat, align: nat): (p: nat)
    requires align > 0
    ensures p < align && (addr + p) % align == 0
  {
    var r := addr % align;
    assert addr == align * (addr / align) + r;
    if r == 0 then 0 else
      assert addr + (align - r) == align * (addr / align + 1);
      MultipleMod(align, addr / align + 1);
      align - r
  }

  /** As few bytes as lead to a multiple of the alignment. */
  function PadTo(addr: nat, align: Option<nat>): (p: nat)
    ensures align.Some? && align.value > 0 ==> p < align.value && (addr + p) % align.value == 0
    ensures align.None? || align.value == 0 ==> p == 0
  {
    match align
    case None => 0
    case Some(a) => if a == 0 then 0 else Padding(addr, a)
  }

  function Zeros(n: nat): (s: seq<Byte>)
    ensures |s| == n
  {
    seq(n, _ => Raw(0))
  }

  function Content(atom: Atom): seq<Byte> {
    AtomBytes(atom.items)
  }

  /** Where an atom starts when the atoms before it end at addr. */
  function AtomAddr(atom: Atom, addr: nat): (a: nat)
    ensures a >= addr
  {
    addr + PadTo(addr, atom.align)
  }

  /** The bytes emitted for an atom: padding and content. */
  function Emitted(atom: Atom, start: nat): (s: seq<Byte>)
    ensures |s| == PadTo(start, atom.align) + |Content(atom)|
  {
    Zeros(PadTo(start, atom.align)) + Content(atom)
  }

  /** The bytes emitted for the atoms from address start on. */
  function Image(atoms: seq<Atom>, start: nat): seq<Byte> {
    if atoms == [] then [] else
      var e := Emitted(atoms[0], start);
      e + Image(atoms[1..], start + |e|)
  }

  /** The address of a symbol, if it is one of the atoms. */
  function AddrOf(atoms: seq<Atom>, start: nat, symbol: nat): Option<nat> {
    if atoms == [] then None else
      if atoms[0].name == symbol then Some(AtomAddr(atoms[0], start))
      else AddrOf(atoms[1..], start + |Emitted(atoms[0], start)|, symbol)
  }

  datatype Place = Here(addr: int) | Elsewhere(r: Ref)

  /** What a reference stands for. */
  function Resolve(atoms: seq<Atom>, start: nat, r: Ref): Place {
    match AddrOf(atoms, start, r.symbol)
    case None => Elsewhere(r)
    case Some(a) => Here(a + r.offset)
  }

  // ---------------------------------------------------------------- layout of parts

  lemma ImageUnfold(atoms: seq<Atom>, start: nat)
    requires atoms != []
    ensures Image(atoms, start) == Emitted(atoms[0], start) + Image(atoms[1..], start + |Emitted(atoms[0], start)|)
  {
  }

  lemma ImageEmpty(t: seq<Atom>, start: nat)
    ensures Image([], start) == [] && [] + t == t
  {
  }

  lemma {:induction false} ImageConcat(s: seq<Atom>, t: seq<Atom>, start: nat)
    ensures Image(s + t, start) == Image(s, start) + Image(t, start + |Image(s, start)|)
  {
    hide Image, Emitted;
    if s == [] {
      ImageEmpty(t, start);
    } else {
      assert (s + t)[1..] == s[1..] + t;
      var e := Emitted(s[0], start);
      var tail := Image(s[1..], start + |e|);
      ImageUnfold(s, start);
      ImageUnfold(s + t, start);
      ImageConcat(s[1..], t, start + |e|);
      Assoc3(e, tail, Image(t, start + |e| + |tail|));
    }
  }

  lemma Assoc3(s: seq<Byte>, t: seq<Byte>, u: seq<Byte>)
    ensures s + (t + u) == (s + t) + u
  {
  }

  lemma AddrStep(s: seq<Atom>, start: nat, symbol: nat)
    requires s != []
    ensures AddrOf(s, start, symbol) == if s[0].name == symbol then Some(AtomAddr(s[0], start))
                                        else AddrOf(s[1..], start + |Emitted(s[0], start)|, symbol)
    ensures |Image(s, start)| == |Emitted(s[0], start)| + |Image(s[1..], start + |Emitted(s[0], start)|)|
  {
  }

  lemma AddrNone(s: seq<Atom>, start: nat, symbol: nat)
    requires s == []
    ensures AddrOf(s, start, symbol) == None && Image(s, start) == []
  {
  }

  lemma {:induction false} AddrConcat(s: seq<Atom>, t: seq<Atom>, start: nat, symbol: nat)
    ensures AddrOf(s + t, start, symbol) ==
      if AddrOf(s, start, symbol).Some? then AddrOf(s, start, symbol) else AddrOf(t, start + |Image(s, start)|, symbol)
  {
    hide *;
    if s == [] {
      assert s + t == t;
      AddrNone(s, start, symbol);
    } else {
      assert (s + t)[1..] == s[1..] + t && (s + t)[0] == s[0];
      AddrStep(s, start, symbol);
      AddrStep(s + t, start, symbol);
      AddrConcat(s[1..], t, start + |Emitted(s[0], start)|, symbol);
    }
  }

  ghost predicate Defines(atoms: seq<Atom>, symbol: nat) {
    exists i :: 0 <= i < |atoms| && atoms[i].name == symbol
  }

  lemma {:induction false} AddrDefined(atoms: seq<Atom>, start: nat, symbol: nat)
    ensures AddrOf(atoms, start, symbol).Some? <==> Defines(atoms, symbol)
  {
    if atoms != [] {
      AddrDefined(atoms[1..], start + |Emitted(atoms[0], start)|, symbol);
      assert Defines(atoms[1..], symbol) ==> Defines(atoms, symbol) by {
        if Defines(atoms[1..], symbol) {
          var i :| 0 <= i < |atoms[1..]| && atoms[1..][i].name == symbol;
          assert atoms[i + 1].name == symbol;
        }
      }
      if Defines(atoms, symbol) && atoms[0].name != symbol {
        var i :| 0 <= i < |atoms| && atoms[i].name == symbol;
        assert atoms[1..][i - 1].name == symbol;
      }
    }
  }

  // ---------------------------------------------------------------- one merge

  predicate CoalescibleAlignment(base: Option<nat>, align: nat) {
    align == 1 || (base.Some? && align <= base.value)
  }

  predicate Mergeable(base: Atom, next: Atom) {
    next.local && (next.align.Some? ==> CoalescibleAlignment(base.align, next.align.value))
  }

  /** The filler needed before next is appended to base. */
  function Filler(base: Atom, next: Atom): nat {
    PadTo(|Content(base)|, next.align)
  }

  function Merged(base: Atom, next: Atom): Atom {
    var pad := Filler(base, next);
    base.(items := base.items + (if pad > 0 then [Space(pad)] else []) + next.items)
  }

  ghost predicate Aligned(atom: Atom) {
    atom.align.Some? ==> PowerOfTwo(atom.align.value)
  }

  /** A power of two divides every larger one. */
  lemma {:induction false} PowersDivide(a: nat, b: nat)
    requires PowerOfTwo(a) && PowerOfTwo(b) && a <= b
    ensures a > 0 && b % a == 0
  {
    if a > 1 {
      PowersDivide(a / 2, b / 2);
      DoubleMod(a / 2, b / 2);
    }
  }

  lemma DoubleMod(a: nat, b: nat)
    requires a > 0 && b % a == 0
    ensures (2 * b) % (2 * a) == 0
  {
    var k := b / a;
    assert b == a * k;
    assert 2 * b == (2 * a) * k;
    MultipleMod(2 * a, k);
  }

  /** Adding a multiple of the alignment does not change the padding. */
  lemma PaddingShift(base: nat, x: nat, a: nat)
    requires a > 0 && base % a == 0
    ensures Padding(base + x, a) == Padding(x, a)
  {
    var k := base / a;
    assert base == a * k;
    ModMultiple(a, k, x);
  }

  lemma Divides(a: nat, b: nat, x: nat)
    requires a > 0 && b > 0 && b % a == 0 && x % b == 0
    ensures x % a == 0
  {
    var j, k := x / b, b / a;
    assert x == b * j && b == a * k;
    assert x == a * (k * j) by {
      Assoc(a, k, j);
    }
    MultipleMod(a, k * j);
  }

  lemma Assoc(a: nat, k: nat, j: nat)
    ensures (a * k) * j == a * (k * j)
  {
  }

  /** The filler is the padding the emitter would have inserted. */
  lemma FillerIsPadding(base: Atom, next: Atom, start: nat)
    requires Aligned(base) && Aligned(next) && Mergeable(base, next)
    ensures PadTo(AtomAddr(base, start) + |Content(base)|, next.align) == Filler(base, next)
  {
    if next.align.Some? {
      var a, addr := next.align.value, AtomAddr(base, start);
      if a > 1 {
        PowersDivide(a, base.align.value);
        Divides(a, base.align.value, addr);
        PaddingShift(addr, |Content(base)|, a);
      }
    }
  }

  lemma {:induction false} BytesConcat(s: seq<Item>, t: seq<Item>)
    ensures AtomBytes(s + t) == AtomBytes(s) + AtomBytes(t)
  {
    hide AtomBytes, Bytes;
    if t == [] {
      assert s + t == s;
      NoBytes();
    } else {
      var init, x := t[..|t| - 1], t[|t| - 1];
      assert t == init + [x] && s + t == (s + init) + [x];
      BytesConcat(s, init);
      AppendItem(init, x);
      AppendItem(s + init, x);
      Assoc3(AtomBytes(s), AtomBytes(init), Bytes(x));
    }
  }

  lemma MergedContent(base: Atom, next: Atom)
    ensures Content(Merged(base, next)) == Content(base) + Zeros(Filler(base, next)) + Content(next)
  {
    var pad := Filler(base, next);
    var fill := if pad > 0 then [Space(pad)] else [];
    BytesConcat(base.items + fill, next.items);
    BytesConcat(base.items, fill);
    if pad > 0 {
      assert [Space(pad)][..0] == [];
      assert AtomBytes([Space(pad)]) == AtomBytes([]) + Bytes(Space(pad));
      assert AtomBytes(fill) == Zeros(pad);
    } else {
      assert AtomBytes(fill) == Zeros(0);
    }
  }

  /** Merging two neighbours moves no byte and no other symbol. */
  lemma MergeFront(base: Atom, next: Atom, rest: seq<Atom>, start: nat, symbol: nat)
    requires Aligned(base) && Aligned(next) && Mergeable(base, next) && base.name != next.name
    ensures Image([Merged(base, next)] + rest, start) == Image([base, next] + rest, start)
    ensures symbol != next.name ==>
      AddrOf([Merged(base, next)] + rest, start, symbol) == AddrOf([base, next] + rest, start, symbol)
    ensures AddrOf([base, next] + rest, start, next.name) ==
      Some(AtomAddr(base, start) + |Content(base)| + Filler(base, next))
    ensures AddrOf([Merged(base, next)] + rest, start, base.name) == Some(AtomAddr(base, start))
  {
    hide AtomBytes, Image, Emitted;
    var m := Merged(base, next);
    MergedEmitted(base, next, start);
    assert ([m] + rest)[1..] == rest && ([base, next] + rest)[1..] == [next] + rest && ([next] + rest)[1..] == rest;
    ImageUnfold([m] + rest, start);
    ImageUnfold([base, next] + rest, start);
    ImageUnfold([next] + rest, start + |Emitted(base, start)|);
    Assoc3(Emitted(base, start), Emitted(next, start + |Emitted(base, start)|),
      Image(rest, start + |Emitted(m, start)|));
  }

  /** The merged atom emits what the two emitted. */
  lemma MergedEmitted(base: Atom, next: Atom, start: nat)
    requires Aligned(base) && Aligned(next) && Mergeable(base, next)
    ensures Emitted(Merged(base, next), start) == Emitted(base, start) + Emitted(next, start + |Emitted(base, start)|)
    ensures AtomAddr(next, start + |Emitted(base, start)|) == AtomAddr(base, start) + |Content(base)| +
      Filler(base, next)
  {
    hide AtomBytes;
    MergedContent(base, next);
    FillerIsPadding(base, next, start);
  }

  // ---------------------------------------------------------------- the pass

  ghost predicate DistinctNames(atoms: seq<Atom>) {
    forall i, j :: 0 <= i < j < |atoms| ==> atoms[i].name != atoms[j].name
  }

  ghost predicate AllAligned(atoms: seq<Atom>) {
    forall i :: 0 <= i < |atoms| ==> Aligned(atoms[i])
  }

  function Redirected(r: Ref, from: nat, to: nat, offset: nat): Ref {
    if r.symbol == from then Ref(to, r.offset + offset) else r
  }

  /** The same bytes at the same addresses, and every reference still stands for the same. */
  ghost predicate SameLayout(atoms: seq<Atom>, refs: map<nat, Ref>, atoms': seq<Atom>, refs': map<nat, Ref>) {
    && refs'.Keys == refs.Keys
    && (forall start: nat :: Image(atoms', start) == Image(atoms, start))
    && (forall start: nat, u :: u in refs ==> Resolve(atoms', start, refs'[u]) == Resolve(atoms, start, refs[u]))
  }

  lemma SameLayoutTrans(a: seq<Atom>, r: map<nat, Ref>, b: seq<Atom>, s: map<nat, Ref>, c: seq<Atom>, t: map<nat, Ref>)
    requires SameLayout(a, r, b, s) && SameLayout(b, s, c, t)
    ensures SameLayout(a, r, c, t)
  {
    hide Image, Resolve;
  }

  lemma MergeAt(pre: seq<Atom>, base: Atom, next: Atom, rest: seq<Atom>, start: nat)
    requires Aligned(base) && Aligned(next) && Mergeable(base, next) && base.name != next.name
    ensures Image(pre + ([Merged(base, next)] + rest), start) == Image(pre + ([base, next] + rest), start)
  {
    hide Image, AddrOf, Merged, Mergeable, Aligned;
    ImageConcat(pre, [Merged(base, next)] + rest, start);
    ImageConcat(pre, [base, next] + rest, start);
    MergeFront(base, next, rest, start + |Image(pre, start)|, base.name);
  }

  lemma ResolveMerged(pre: seq<Atom>, base: Atom, next: Atom, rest: seq<Atom>, start: nat, r: Ref)
    requires Aligned(base) && Aligned(next) && Mergeable(base, next)
    requires base.name != next.name && !Defines(pre, base.name) && !Defines(pre, next.name)
    ensures Resolve(pre + ([Merged(base, next)] + rest), start,
      Redirected(r, next.name, base.name, |Content(base)| + Filler(base, next))) ==
      Resolve(pre + ([base, next] + rest), start, r)
  {
    hide Image, AddrOf, Merged, Mergeable, Aligned, Defines;
    var r' := Redirected(r, next.name, base.name, |Content(base)| + Filler(base, next));
    AddrConcat(pre, [Merged(base, next)] + rest, start, r'.symbol);
    AddrConcat(pre, [base, next] + rest, start, r.symbol);
    AddrDefined(pre, start, r.symbol);
    AddrDefined(pre, start, r'.symbol);
    MergeFront(base, next, rest, start + |Image(pre, start)|, r.symbol);
  }

  function RedirectAll(refs: map<nat, Ref>, from: nat, to: nat, offset: nat): map<nat, Ref> {
    map u | u in refs :: Redirected(refs[u], from, to, offset)
  }

  lemma MergeSameLayout(pre: seq<Atom>, base: Atom, next: Atom, rest: seq<Atom>, refs: map<nat, Ref>)
    requires Aligned(base) && Aligned(next) && Mergeable(base, next) && DistinctNames(pre + ([base, next] + rest))
    ensures SameLayout(pre + ([base, next] + rest), refs, pre + ([Merged(base, next)] + rest),
      RedirectAll(refs, next.name, base.name, |Content(base)| + Filler(base, next)))
  {
    hide Image, AddrOf, Merged, Mergeable, Aligned, Resolve;
    var atoms := pre + ([base, next] + rest);
    assert atoms[|pre|] == base && atoms[|pre| + 1] == next;
    assert !Defines(pre, base.name) && !Defines(pre, next.name) by {
      assert forall i :: 0 <= i < |pre| ==> pre[i] == atoms[i];
    }
    forall start: nat
      ensures Image(pre + ([Merged(base, next)] + rest), start) == Image(atoms, start)
    {
      MergeAt(pre, base, next, rest, start);
    }
    forall start: nat, u | u in refs
      ensures Resolve(pre + ([Merged(base, next)] + rest), start,
        Redirected(refs[u], next.name, base.name, |Content(base)| + Filler(base, next))) ==
          Resolve(atoms, start, refs[u])
    {
      ResolveMerged(pre, base, next, rest, start, refs[u]);
    }
  }

  lemma MergeDistinct(pre: seq<Atom>, base: Atom, next: Atom, rest: seq<Atom>)
    requires DistinctNames(pre + ([base, next] + rest)) && AllAligned(pre + ([base, next] + rest))
    ensures DistinctNames(pre + ([Merged(base, next)] + rest)) && AllAligned(pre + ([Merged(base, next)] + rest))
    ensures Aligned(base) && Aligned(next)
  {
    hide Aligned, AtomBytes;
    var s, t := pre + ([base, next] + rest), pre + ([Merged(base, next)] + rest);
    assert s[|pre|] == base && s[|pre| + 1] == next;
    var m := Merged(base, next);
    assert m.name == base.name && m.align == base.align;
    MergedAligned(base, next);
    forall i | 0 <= i < |t|
      ensures t[i].name == s[if i <= |pre| then i else i + 1].name
      ensures (i != |pre| ==> t[i] == s[if i <= |pre| then i else i + 1])
    {
    }
  }

  lemma MergedAligned(base: Atom, next: Atom)
    ensures Aligned(Merged(base, next)) <==> Aligned(base)
  {
  }

  // ---------------------------------------------------------------- what others see

  /** The atom is still there, as aligned and as visible as before, and at the same address
      wherever the object starts. */
  ghost predicate StillDefined(atoms: seq<Atom>, out: seq<Atom>, a: Atom) {
    && (exists j :: 0 <= j < |out| && SameSymbol(out[j], a))
    && forall start: nat :: AddrOf(out, start, a.name) == AddrOf(atoms, start, a.name)
  }

  predicate SameSymbol(b: Atom, a: Atom) {
    b.name == a.name && b.align == a.align && b.local == a.local
  }

  /** Only local atoms vanish. */
  ghost predicate Exported(atoms: seq<Atom>, out: seq<Atom>) {
    forall i :: 0 <= i < |atoms| && !atoms[i].local ==> StillDefined(atoms, out, atoms[i])
  }

  lemma ExportedRefl(atoms: seq<Atom>)
    ensures Exported(atoms, atoms)
  {
    forall i | 0 <= i < |atoms|
      ensures StillDefined(atoms, atoms, atoms[i])
    {
      assert SameSymbol(atoms[i], atoms[i]);
    }
  }

  lemma ExportedTrans(a: seq<Atom>, b: seq<Atom>, c: seq<Atom>)
    requires Exported(a, b) && Exported(b, c)
    ensures Exported(a, c)
  {
    hide AddrOf;
    forall i | 0 <= i < |a| && !a[i].local
      ensures StillDefined(a, c, a[i])
    {
      assert StillDefined(a, b, a[i]);
      var j :| 0 <= j < |b| && SameSymbol(b[j], a[i]);
      assert StillDefined(b, c, b[j]);
      var k :| 0 <= k < |c| && SameSymbol(c[k], b[j]);
      assert SameSymbol(c[k], a[i]);
    }
  }

  /** A merge takes one local symbol away and leaves all others where they were. */
  lemma MergeExports(pre: seq<Atom>, base: Atom, next: Atom, rest: seq<Atom>)
    requires Aligned(base) && Aligned(next) && Mergeable(base, next) && DistinctNames(pre + ([base, next] + rest))
    ensures Exported(pre + ([base, next] + rest), pre + ([Merged(base, next)] + rest))
  {
    hide Image, AddrOf, Merged, Aligned, CoalescibleAlignment, DistinctNames;
    var s, t := pre + ([base, next] + rest), pre + ([Merged(base, next)] + rest);
    forall i | 0 <= i < |s| && !s[i].local
      ensures StillDefined(s, t, s[i])
    {
      OtherNames(pre, base, next, rest, i);
      MergedSymbol(base, next);
      var j := if i <= |pre| then i else i - 1;
      assert SameSymbol(t[j], s[i]);
      forall start: nat
        ensures AddrOf(t, start, s[i].name) == AddrOf(s, start, s[i].name)
      {
        MergeKeepsAddr(pre, base, next, rest, start, s[i].name);
      }
    }
  }

  lemma OtherNames(pre: seq<Atom>, base: Atom, next: Atom, rest: seq<Atom>, i: nat)
    requires DistinctNames(pre + ([base, next] + rest)) && i < |pre| + 2 + |rest| && next.local
    requires !(pre + ([base, next] + rest))[i].local
    ensures i != |pre| + 1 && (pre + ([base, next] + rest))[i].name != next.name && base.name != next.name
  {
    var s := pre + ([base, next] + rest);
    assert s[|pre| + 1] == next && s[|pre|] == base;
  }

  lemma MergedSymbol(base: Atom, next: Atom)
    ensures SameSymbol(Merged(base, next), base)
  {
  }

  lemma MergeKeepsAddr(pre: seq<Atom>, base: Atom, next: Atom, rest: seq<Atom>, start: nat, symbol: nat)
    requires Aligned(base) && Aligned(next) && Mergeable(base, next) && base.name != next.name && symbol != next.name
    ensures AddrOf(pre + ([Merged(base, next)] + rest), start, symbol) ==
      AddrOf(pre + ([base, next] + rest), start, symbol)
  {
    hide Image, AddrOf, Merged, Mergeable, Aligned;
    AddrConcat(pre, [Merged(base, next)] + rest, start, symbol);
    AddrConcat(pre, [base, next] + rest, start, symbol);
    MergeFront(base, next, rest, start + |Image(pre, start)|, symbol);
  }

  // ---------------------------------------------------------------- the loop

  /** An atom that cannot be appended to base: others may refer to it by name, or it wants an
      alignment other than 1 that base does not have. */
  predicate Stops(base: Atom, next: Atom) {
    || !next.local
    || (next.align.Some? && next.align.value != 1 && (base.align.None? || base.align.value < next.align.value))
  }

  /** Atoms at odd positions could not be merged into the one before. */
  ghost predicate Greedy(atoms: seq<Atom>, original: seq<Atom>) {
    forall i :: 0 <= i < |atoms| && i % 2 == 1 ==> Stops(atoms[i - 1], atoms[i]) && atoms[i] in original
  }

  /** Merges atoms into the one before.  An atom that stops the merging is kept, and the
      merging starts anew after it: it is not tried as a base itself. */
  method Simplify(atoms: seq<Atom>, refs: map<nat, Ref>) returns (out: seq<Atom>, refs': map<nat, Ref>)
    requires DistinctNames(atoms) && AllAligned(atoms)
    ensures SameLayout(atoms, refs, out, refs')
    ensures Exported(atoms, out)
    ensures Greedy(out, atoms)
  {
    hide SameLayout, DistinctNames, AllAligned, Greedy, Merged, Mergeable, AtomBytes, Exported;
    out, refs' := [], refs;
    var at: nat := 0;
    NothingYet(atoms, refs);
    ExportedRefl(atoms);
    while at < |atoms|
      invariant at <= |atoms| && (|out| % 2 == 0 || at == |atoms|) && Greedy(out, atoms)
      invariant SameLayout(atoms, refs, out + atoms[at..], refs') && Exported(atoms, out + atoms[at..])
      invariant DistinctNames(out + atoms[at..]) && AllAligned(out + atoms[at..])
    {
      var base := atoms[at];
      assert atoms[at..] == [base] + atoms[at + 1..];
      at := at + 1;
      var blocker: Option<Atom> := None;
      while at < |atoms|
        invariant at <= |atoms| && blocker.None?
        invariant SameLayout(atoms, refs, out + ([base] + atoms[at..]), refs')
        invariant Exported(atoms, out + ([base] + atoms[at..]))
        invariant DistinctNames(out + ([base] + atoms[at..])) && AllAligned(out + ([base] + atoms[at..]))
      {
        var next := atoms[at];
        NextTwo(base, atoms, at);
        at := at + 1;
        if !Mergeable(base, next) {
          blocker := Some(next);
          break;
        }
        MergeDistinct(out, base, next, atoms[at..]);
        MergeSameLayout(out, base, next, atoms[at..], refs');
        MergeExports(out, base, next, atoms[at..]);
        ExportedTrans(atoms, out + ([base, next] + atoms[at..]), out + ([Merged(base, next)] + atoms[at..]));
        ghost var before := refs';
        refs' := RedirectAll(refs', next.name, base.name, |Content(base)| + Filler(base, next));
        SameLayoutTrans(atoms, refs, out + ([base, next] + atoms[at..]), before,
          out + ([Merged(base, next)] + atoms[at..]), refs');
        base := Merged(base, next);
      }
      if blocker.Some? {
        Regroup(out, [base, blocker.value], atoms[at..]);
        GreedyMore(out, atoms, base, blocker.value);
        out := out + [base, blocker.value];
      } else {
        Regroup(out, [base], atoms[at..]);
        GreedyLast(out, atoms, base);
        out := out + [base];
      }
    }
    assert out + atoms[at..] == out;
  }

  lemma Regroup(a: seq<Atom>, b: seq<Atom>, c: seq<Atom>)
    ensures a + (b + c) == (a + b) + c
  {
  }

  lemma NextTwo(base: Atom, atoms: seq<Atom>, at: nat)
    requires at < |atoms|
    ensures [base] + atoms[at..] == [base, atoms[at]] + atoms[at + 1..]
  {
  }

  lemma NothingYet(atoms: seq<Atom>, refs: map<nat, Ref>)
    ensures SameLayout(atoms, refs, [] + atoms[0..], refs) && [] + atoms[0..] == atoms && Greedy([], atoms)
  {
    assert [] + atoms[0..] == atoms;
  }

  lemma GreedyMore(out: seq<Atom>, atoms: seq<Atom>, base: Atom, next: Atom)
    requires Greedy(out, atoms) && |out| % 2 == 0 && !Mergeable(base, next) && next in atoms
    ensures Greedy(out + [base, next], atoms)
  {
  }

  lemma GreedyLast(out: seq<Atom>, atoms: seq<Atom>, base: Atom)
    requires Greedy(out, atoms) && |out| % 2 == 0
    ensures Greedy(out + [base], atoms)
  {
  }
}
