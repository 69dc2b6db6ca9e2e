/** The first part of a bitcode file: the names of all symbols, which fixes their numbers
    (core/bitcode_writer.cpp:43-87, core/bitcode_reader.cpp:60-102). */
module BitcodeNames {
  import opened Bytes
  import opened BitcodeAnnot
  import opened BitcodeBody
  import opened BitcodeCode
  import opened BitcodeInst
  import opened BitcodeValue

  const MAGIC: nat := 0x52494C4C

  datatype DataNames = DataNames(name: Name, objects: seq<seq<Name>>)
  datatype FuncNames = FuncNames(name: Name, blocks: seq<(Name, Byte)>)
  datatype Symbols = Symbols(name: Name, externs: seq<Name>, data: seq<DataNames>, funcs: seq<FuncNames>)

  // The order of the symbols

  function Concat<T>(xss: seq<seq<T>>): (r: seq<T>) {
    if xss == [] then [] else xss[0] + Concat(xss[1..])
  }

  function AtomNames(ds: seq<DataNames>): (r: seq<Name>) {
    if ds == [] then [] else Concat(ds[0].objects) + AtomNames(ds[1..])
  }

  /** A function is followed by its blocks. */
  function CodeNames(fs: seq<FuncNames>): (r: seq<Name>) {
    if fs == [] then [] else [fs[0].name] + Names(fs[0].blocks) + CodeNames(fs[1..])
  }

  function Globals(s: Symbols): (r: seq<Name>) {
    s.externs + AtomNames(s.data) + CodeNames(s.funcs)
  }

  // Numbering

  ghost predicate Distinct<T(!new)>(xs: seq<T>) {
    forall i, j :: 0 <= i < j < |xs| ==> xs[i] != xs[j]
  }

  /** Each new key is given the number of keys before it. */
  function NumberAll<T>(xs: seq<T>, base: nat): (m: map<T, nat>)
    decreases |xs|
  {
    if xs == [] then map[] else
    var m := NumberAll(xs[..|xs| - 1], base);
    var x := xs[|xs| - 1];
    if x in m then m else m[x := base + |m|]
  }

  lemma NumbersNext<T(!new)>(m: map<T, nat>, xs: seq<T>, base: nat, x: T)
    requires Numbers(m, xs, base) && x !in xs
    ensures x !in m && Numbers(m[x := base + |xs|], xs + [x], base)
    ensures |m[x := base + |xs|]| == |m| + 1
  {
    forall y | y in m
      ensures y != x
    {
      assert xs[m[y] - base] == y;
    }
  }

  lemma DistinctFront<T(!new)>(xs: seq<T>)
    requires Distinct(xs) && xs != []
    ensures Distinct(xs[..|xs| - 1]) && xs[|xs| - 1] !in xs[..|xs| - 1]
  {
  }

  lemma NumberAllStep<T>(front: seq<T>, x: T, base: nat)
    ensures NumberAll(front + [x], base) == var m := NumberAll(front, base); if x in m then m else m[x := base + |m|]
  {
    assert (front + [x])[..|front|] == front;
  }

  lemma NumberNone<T(!new)>(xs: seq<T>, base: nat)
    requires xs == []
    ensures Numbers(NumberAll(xs, base), xs, base) && |NumberAll(xs, base)| == 0
  {
  }

  lemma {:induction false} NumberAllNumbers<T(!new)>(xs: seq<T>, base: nat)
    requires Distinct(xs)
    ensures Numbers(NumberAll(xs, base), xs, base) && |NumberAll(xs, base)| == |xs|
    decreases |xs|
  {
    hide *;
    if xs == [] {
      NumberNone(xs, base);
    } else {
      var front, x := xs[..|xs| - 1], xs[|xs| - 1];
      DistinctFront(xs);
      NumberAllNumbers(front, base);
      var m := NumberAll(front, base);
      NumbersNext(m, front, base, x);
      NumberAllStep(front, x, base);
      assert xs == front + [x];
    }
  }

  /** The results of the instructions of a function are distinct when its blocks have
      distinct names. */
  lemma {:induction false} InBlock(bl: Block, isa: Isa, i: nat)
    requires i <= |bl.insts|
    ensures Distinct(ResultsIn(bl, isa, i))
    ensures forall r :: r in ResultsIn(bl, isa, i) ==> r.block == bl.name && r.inst < i
  {
    if i > 0 {
      InBlock(bl, isa, i - 1);
      var front, last := ResultsIn(bl, isa, i - 1), Defs(bl.name, i - 1, Rets(bl.insts[i - 1], isa));
      assert forall k: nat :: k < |last| ==> last[k] == Ref(bl.name, i - 1, k);
      forall k, l | 0 <= k < l < |front| + |last|
        ensures (front + last)[k] != (front + last)[l]
      {
        assert k < |front| ==> (front + last)[k] in front;
      }
    }
  }

  lemma {:induction false} InBlocks(bs: seq<Block>, isa: Isa, b: nat)
    requires b <= |bs| && Distinct(Names(Headers(bs)))
    ensures Distinct(ResultsOf(bs, isa, b))
    ensures forall r :: r in ResultsOf(bs, isa, b) ==> exists c: nat :: c < b && r.block == bs[c].name
  {
    if b > 0 {
      InBlocks(bs, isa, b - 1);
      InBlock(bs[b - 1], isa, |bs[b - 1].insts|);
      var front, last := ResultsOf(bs, isa, b - 1), ResultsIn(bs[b - 1], isa, |bs[b - 1].insts|);
      forall r | r in front
        ensures r.block != bs[b - 1].name
      {
        var c: nat :| c < b - 1 && r.block == bs[c].name;
        assert Names(Headers(bs))[c] != Names(Headers(bs))[b - 1];
      }
      forall k, l | 0 <= k < l < |front| + |last|
        ensures (front + last)[k] != (front + last)[l]
      {
        assert k < |front| ==> (front + last)[k] in front;
        assert l >= |front| ==> (front + last)[l] in last;
      }
    }
  }

  // Reading and writing the names

  predicate FitsList(xs: seq<Name>) {
    |xs| < Width(4) && forall i :: 0 <= i < |xs| ==> FitsName(xs[i])
  }

  function WriteList(xs: seq<Name>): (s: seq<Byte>) {
    EmitList(4, xs, EmitName)
  }

  function ReadNameList(buf: seq<Byte>, off: nat): (r: Parsed<seq<Name>>)
    ensures r.Got? ==> FitsList(r.value)
  {
    var (xs, o) :- ReadList(buf, off, 4, ReadString);
    ListHolds(buf, off, 4, ReadString, FitsName);
    Got(xs, o)
  }

  lemma NameListInverts(buf: seq<Byte>, xs: seq<Name>)
    requires FitsList(xs)
    ensures Inverts(buf, ReadNameList, WriteList, xs)
  {
    hide ReadList, EmitList, ReadString, EmitName, FitsName, At;
    forall off: nat | At(buf, off, WriteList(xs))
      ensures ReadNameList(buf, off) == Got(xs, off + |WriteList(xs)|)
    {
      forall i | 0 <= i < |xs|
        ensures Inverts(buf, ReadString, EmitName, xs[i])
      {
        NameInverts(buf, xs[i]);
      }
      ListRoundTrip(buf, off, 4, xs, ReadString, EmitName);
    }
  }

  predicate FitsDataNames(d: DataNames) {
    FitsName(d.name) && |d.objects| < Width(4) && forall i :: 0 <= i < |d.objects| ==> FitsList(d.objects[i])
  }

  function WriteDataNames(d: DataNames): (s: seq<Byte>) {
    EmitName(d.name) + EmitList(4, d.objects, WriteList)
  }

  function ReadDataNames(buf: seq<Byte>, off: nat): (r: Parsed<DataNames>)
    ensures r.Got? ==> FitsDataNames(r.value)
  {
    var (name, o) :- ReadString(buf, off);
    var (objects, o1) :- ReadList(buf, o, 4, ReadNameList);
    ListHolds(buf, o, 4, ReadNameList, FitsList);
    Got(DataNames(name, objects), o1)
  }

  lemma DataNamesInverts(buf: seq<Byte>, d: DataNames)
    requires FitsDataNames(d)
    ensures Inverts(buf, ReadDataNames, WriteDataNames, d)
  {
    hide ReadList, EmitList, ReadString, EmitName, FitsName, At, ReadNameList, WriteList, FitsList;
    forall off: nat | At(buf, off, WriteDataNames(d))
      ensures ReadDataNames(buf, off) == Got(d, off + |WriteDataNames(d)|)
    {
      AtSplit(buf, off, EmitName(d.name), EmitList(4, d.objects, WriteList));
      ReadEmittedName(buf, off, d.name);
      forall i | 0 <= i < |d.objects|
        ensures Inverts(buf, ReadNameList, WriteList, d.objects[i])
      {
        NameListInverts(buf, d.objects[i]);
      }
      ListRoundTrip(buf, off + |EmitName(d.name)|, 4, d.objects, ReadNameList, WriteList);
    }
  }

  predicate FitsHeader(h: (Name, Byte)) {
    FitsName(h.0)
  }

  function WriteHeader(h: (Name, Byte)): (s: seq<Byte>) {
    EmitName(h.0) + Emit(1, h.1)
  }

  function ReadHeader(buf: seq<Byte>, off: nat): (r: Parsed<(Name, Byte)>)
    ensures r.Got? ==> FitsHeader(r.value)
  {
    var (name, o) :- ReadString(buf, off);
    var (vis, o1) :- ReadByte(buf, o);
    Got((name, vis), o1)
  }

  lemma HeaderInverts(buf: seq<Byte>, h: (Name, Byte))
    requires FitsHeader(h)
    ensures Inverts(buf, ReadHeader, WriteHeader, h)
  {
    hide ReadString, EmitName, FitsName, At, ReadByte, Emit;
    forall off: nat | At(buf, off, WriteHeader(h))
      ensures ReadHeader(buf, off) == Got(h, off + |WriteHeader(h)|)
    {
      AtSplit(buf, off, EmitName(h.0), Emit(1, h.1));
      ReadEmittedName(buf, off, h.0);
      ReadEmittedByte(buf, off + |EmitName(h.0)|, h.1);
    }
  }

  predicate FitsFuncNames(f: FuncNames) {
    FitsName(f.name) && |f.blocks| < Width(4) && forall i :: 0 <= i < |f.blocks| ==> FitsHeader(f.blocks[i])
  }

  function WriteFuncNames(f: FuncNames): (s: seq<Byte>) {
    EmitName(f.name) + EmitList(4, f.blocks, WriteHeader)
  }

  function ReadFuncNames(buf: seq<Byte>, off: nat): (r: Parsed<FuncNames>)
    ensures r.Got? ==> FitsFuncNames(r.value)
  {
    var (name, o) :- ReadString(buf, off);
    var (blocks, o1) :- ReadList(buf, o, 4, ReadHeader);
    ListHolds(buf, o, 4, ReadHeader, FitsHeader);
    Got(FuncNames(name, blocks), o1)
  }

  lemma FuncNamesInverts(buf: seq<Byte>, f: FuncNames)
    requires FitsFuncNames(f)
    ensures Inverts(buf, ReadFuncNames, WriteFuncNames, f)
  {
    hide ReadList, EmitList, ReadString, EmitName, FitsName, At, ReadHeader, WriteHeader, FitsHeader;
    forall off: nat | At(buf, off, WriteFuncNames(f))
      ensures ReadFuncNames(buf, off) == Got(f, off + |WriteFuncNames(f)|)
    {
      AtSplit(buf, off, EmitName(f.name), EmitList(4, f.blocks, WriteHeader));
      ReadEmittedName(buf, off, f.name);
      forall i | 0 <= i < |f.blocks|
        ensures Inverts(buf, ReadHeader, WriteHeader, f.blocks[i])
      {
        HeaderInverts(buf, f.blocks[i]);
      }
      ListRoundTrip(buf, off + |EmitName(f.name)|, 4, f.blocks, ReadHeader, WriteHeader);
    }
  }

  predicate FitsSymbols(s: Symbols) {
    && FitsName(s.name) && FitsList(s.externs)
    && |s.data| < Width(4) && (forall i :: 0 <= i < |s.data| ==> FitsDataNames(s.data[i]))
    && |s.funcs| < Width(4) && (forall i :: 0 <= i < |s.funcs| ==> FitsFuncNames(s.funcs[i]))
  }

  function WriteSymbols(s: Symbols): (out: seq<Byte>) {
    Emit(4, MAGIC) + EmitName(s.name) + WriteList(s.externs)
    + EmitList(4, s.data, WriteDataNames) + EmitList(4, s.funcs, WriteFuncNames)
  }

  function ReadSymbols(buf: seq<Byte>, off: nat): (r: Parsed<Symbols>)
    ensures r.Got? ==> FitsSymbols(r.value)
  {
    var (magic, o) :- ReadData(buf, off, 4);
    if magic != MAGIC then Fatal else
    var (name, o1) :- ReadString(buf, o);
    var (externs, o2) :- ReadNameList(buf, o1);
    var (data, o3) :- ReadList(buf, o2, 4, ReadDataNames);
    var (funcs, o4) :- ReadList(buf, o3, 4, ReadFuncNames);
    ListHolds(buf, o2, 4, ReadDataNames, FitsDataNames);
    ListHolds(buf, o3, 4, ReadFuncNames, FitsFuncNames);
    Got(Symbols(name, externs, data, funcs), o4)
  }

  lemma SymbolsOfFileRoundTrip(buf: seq<Byte>, off: nat, s: Symbols)
    requires FitsSymbols(s) && At(buf, off, WriteSymbols(s))
    ensures ReadSymbols(buf, off) == Got(s, off + |WriteSymbols(s)|)
  {
    hide ReadList, EmitList, ReadString, EmitName, FitsName, At, ReadNameList, WriteList, FitsList, ReadDataNames,
         WriteDataNames, FitsDataNames, ReadFuncNames, WriteFuncNames, FitsFuncNames, Emit, ReadData;
    var a, b, c := Emit(4, MAGIC), EmitName(s.name), WriteList(s.externs);
    var d, e := EmitList(4, s.data, WriteDataNames), EmitList(4, s.funcs, WriteFuncNames);
    AtSplit(buf, off, a + b + c + d, e);
    AtSplit(buf, off, a + b + c, d);
    AtSplit(buf, off, a + b, c);
    AtSplit(buf, off, a, b);
    MagicFits();
    ReadEmitted(buf, off, 4, MAGIC);
    ReadEmittedName(buf, off + 4, s.name);
    NameListInverts(buf, s.externs);
    assert At(buf, off + 4 + |b|, c);
    forall i | 0 <= i < |s.data|
      ensures Inverts(buf, ReadDataNames, WriteDataNames, s.data[i])
    {
      DataNamesInverts(buf, s.data[i]);
    }
    ListRoundTrip(buf, off + 4 + |b| + |c|, 4, s.data, ReadDataNames, WriteDataNames);
    forall i | 0 <= i < |s.funcs|
      ensures Inverts(buf, ReadFuncNames, WriteFuncNames, s.funcs[i])
    {
      FuncNamesInverts(buf, s.funcs[i]);
    }
    ListRoundTrip(buf, off + 4 + |b| + |c| + |d|, 4, s.funcs, ReadFuncNames, WriteFuncNames);
  }

  lemma MagicFits()
    ensures MAGIC < Width(4)
  {
    assert Width(4) == 256 * (256 * (256 * (256 * Width(0))));
  }
}
