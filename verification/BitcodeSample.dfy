/** One program and its file, byte for byte: numbers come lowest byte first, and the tags and the
    order of all parts are those of core/bitcode_writer.cpp. */
module BitcodeSample {
  import opened Bytes
  import opened BitcodeAnnot
  import opened BitcodeBody
  import opened BitcodeCode
  import opened BitcodeData
  import opened BitcodeFunc
  import opened BitcodeInst
  import opened BitcodeNames
  import opened BitcodeProg
  import opened BitcodeValue
  import opened Options

  // Names of one letter: an atom, two blocks, an extern and a function.
  const ATOM: Name := [97]
  const ENTRY: Name := [98]
  const EXIT: Name := [99]
  const EXTERN: Name := [101]
  const FUNC: Name := [102]

  /** Kind 9 is PHI; kind 10 has one type, an operand and two results, kind 11 a block, and kind 12
      a result of another instruction and an optional byte. */
  const ISA := Isa(9, map[
    10 := Layout(Some(1), [ValueShape], Some(2)),
    11 := Layout(Some(0), [BlockShape], None),
    12 := Layout(Some(0), [InstShape, OptScalarShape(1)], None)])

  function SampleAtom(): AtomBody {
    AtomBody(Some(8), 2, [Int16(-2), Expr32(SymbolOffset(Some(EXTERN), 3)), Space(5), Str([104, 105])])
  }

  function EntryBlock(): BitcodeCode.Block {
    BitcodeCode.Block(ENTRY, 5,
      [Op([Probability(1, 2)], 10, [3], [ValueField(ConstVal(IntConst(258)))]), Op([], 11, [], [BlockField(EXIT)])])
  }

  function ExitBlock(): BitcodeCode.Block {
    BitcodeCode.Block(EXIT, 6,
      [BitcodeCode.Phi([], 3, [(ENTRY, BitcodeValue.Ref(ENTRY, 0, 1))]),
       Op([], 12, [], [InstField(Some(BitcodeValue.Ref(EXIT, 0, 0))), OptScalar(Some(4))])])
  }

  function SampleFunc(): BitcodeFunc.Func {
    BitcodeFunc.Func(FUNC, Flags(Some(16), 1, 3, true, false), Target([120], [121], [122]), [StackObject(7, 24, 8)],
      [FlaggedType(4, ByVal(2, 1))], Some(EXTERN), [EntryBlock(), ExitBlock()])
  }

  function SampleExtern(): ExternBody {
    ExternBody(4, Some(GlobalVal(ATOM)), Some([115]))
  }

  function Sample(): Prog {
    Prog([109], [Data([100], [Object(true, [Atom(ATOM, SampleAtom())])])], [SampleFunc()],
      [Extern(EXTERN, SampleExtern())], [Xtor(1, -1, FUNC)])
  }

  /** Externs are numbered first, then atoms, then functions with their blocks. */
  ghost predicate SymbolNumbers(w: Numbering) {
    && Lookup(w.symbols, EXTERN) == 0 && Lookup(w.symbols, ATOM) == 1 && Lookup(w.symbols, FUNC) == 2
    && Lookup(w.symbols, ENTRY) == 3 && Lookup(w.symbols, EXIT) == 4
  }

  /** Results are numbered from 1. */
  ghost predicate SampleNumbers(w: Numbering) {
    && SymbolNumbers(w)
    && Lookup(w.insts, BitcodeValue.Ref(ENTRY, 0, 0)) == 1 && Lookup(w.insts, BitcodeValue.Ref(ENTRY, 0, 1)) == 2
    && Lookup(w.insts, BitcodeValue.Ref(EXIT, 0, 0)) == 3
  }

  // Numbers

  lemma EmitNext(n: nat, v: nat)
    ensures Emit(0, v) == [] && Emit(n + 1, v) == [v % 256] + Emit(n, v / 256)
  {
  }

  lemma {:induction false} Zeros(n: nat)
    ensures Emit(n, 0) == seq(n, _ => 0)
  {
    if n > 0 {
      Zeros(n - 1);
      EmitNext(n - 1, 0);
    }
  }

  lemma Small(v: nat)
    requires v < 256
    ensures Emit(1, v) == [v] && Emit(2, v) == [v, 0] && Emit(4, v) == [v, 0, 0, 0]
    ensures Emit(8, v) == [v, 0, 0, 0, 0, 0, 0, 0]
  {
    hide Emit;
    Zeros(0);
    Zeros(1);
    Zeros(3);
    Zeros(7);
    EmitNext(0, v);
    EmitNext(1, v);
    EmitNext(3, v);
    EmitNext(7, v);
  }

  lemma Widths()
    ensures Width(1) == 256 && Width(2) == 0x1_0000 && Width(4) == 0x1_0000_0000 && Width(8) == 0x1_0000_0000_0000_0000
  {
    assert Width(3) == 0x100_0000 && Width(5) == 0x100_0000_0000 && Width(6) == 0x1_0000_0000_0000;
  }

  lemma MinusTwo()
    ensures EmitInt(2, -2) == [254, 255]
  {
    hide Emit, Width;
    Widths();
    EmitNext(1, 0xFFFE);
    EmitNext(0, 0xFF);
  }

  lemma MinusOne()
    ensures EmitInt(4, -1) == [255, 255, 255, 255]
  {
    hide Emit, Width;
    Widths();
    EmitNext(3, 0xFFFF_FFFF);
    EmitNext(2, 0xFF_FFFF);
    EmitNext(1, 0xFFFF);
    EmitNext(0, 0xFF);
  }

  lemma Positive(v: nat)
    requires v < 0x1_0000
    ensures EmitInt(8, v) == [v % 256, v / 256, 0, 0, 0, 0, 0, 0]
  {
    hide Emit, Width;
    Widths();
    assert Unsigned(8, v) == v;
    EmitNext(7, v);
    EmitNext(6, v / 256);
    Zeros(6);
  }

  lemma Letter(c: Byte)
    ensures EmitName([c]) == [1, 0, 0, 0, c]
  {
    hide Emit;
    Small(1);
  }

  // Data

  lemma ItemsOf(w: Numbering)
    requires SymbolNumbers(w)
    ensures WriteItem(Int16(-2), w) == [1, 254, 255]
    ensures WriteItem(Expr32(SymbolOffset(Some(EXTERN), 3)), w) == [5, 0, 1, 0, 0, 0, 3, 0, 0, 0, 0, 0, 0, 0]
    ensures WriteItem(Space(5), w) == [7, 5, 0, 0, 0]
    ensures WriteItem(Str([104, 105]), w) == [8, 2, 0, 0, 0, 104, 105]
  {
    hide Emit, EmitInt;
    Small(0);
    Small(1);
    Small(2);
    Small(5);
    Small(7);
    Small(8);
    MinusTwo();
    Positive(3);
  }

  lemma All1<T>(x: T, write: T -> seq<Byte>)
    ensures EmitAll([x], write) == write(x)
  {
    assert [x][1..] == [];
  }

  lemma All2<T>(x: T, y: T, write: T -> seq<Byte>)
    ensures EmitAll([x, y], write) == write(x) + write(y)
  {
    assert [x, y][1..] == [y];
    All1(y, write);
  }

  lemma All4<T>(x: T, y: T, z: T, u: T, write: T -> seq<Byte>)
    ensures EmitAll([x, y, z, u], write) == write(x) + write(y) + write(z) + write(u)
  {
    assert [x, y, z, u][1..] == [y, z, u] && [y, z, u][1..] == [z, u];
    All2(z, u, write);
  }

  lemma AtomOf(w: Numbering)
    requires SymbolNumbers(w)
    ensures WriteAtom(SampleAtom(), w) ==
      [8, 0, 0, 0] + [2] + [4, 0, 0, 0]
      + [1, 254, 255] + [5, 0, 1, 0, 0, 0, 3, 0, 0, 0, 0, 0, 0, 0] + [7, 5, 0, 0, 0] + [8, 2, 0, 0, 0, 104, 105]
  {
    hide Emit, EmitAll, WriteItem;
    Small(8);
    Small(2);
    Small(4);
    ItemsOf(w);
    var a := SampleAtom();
    All4(a.items[0], a.items[1], a.items[2], a.items[3], ItemWriter(w));
  }

  lemma ExternOf(w: Numbering)
    requires SymbolNumbers(w)
    ensures WriteExtern(SampleExtern(), w) == [4] + [1, 1, 1, 0, 0, 0] + [1, 1, 0, 0, 0, 115]
  {
    hide Emit;
    Small(4);
    Small(1);
    Letter(115);
  }

  lemma XtorOf(w: Numbering)
    requires SymbolNumbers(w)
    ensures WriteXtor(Xtor(1, -1, FUNC), w) == [1] + [255, 255, 255, 255] + [2, 0, 0, 0]
  {
    hide Emit, EmitInt;
    Small(1);
    Small(2);
    MinusOne();
  }

  // Code

  lemma AnnotsOf()
    ensures WriteAnnots([]) == [0] && WriteAnnots([Probability(1, 2)]) == [1] + [0] + [1, 0, 0, 0] + [2, 0, 0, 0]
  {
    hide Emit;
    Small(0);
    Small(1);
    Small(2);
    All1(Probability(1, 2), WriteAnnot);
  }

  lemma OneField(f: Field, s: Shape, w: Numbering)
    requires Matches(f, s)
    ensures MatchAll([f], [s]) && WriteFields([f], [s], w) == WriteField(f, s, w)
  {
    assert [f][1..] == [] && [s][1..] == [];
  }

  lemma TwoFields(f: Field, g: Field, s: Shape, t: Shape, w: Numbering)
    requires Matches(f, s) && Matches(g, t)
    ensures MatchAll([f, g], [s, t])
    ensures WriteFields([f, g], [s, t], w) == WriteField(f, s, w) + WriteField(g, t, w)
  {
    assert [f, g][1..] == [g] && [s, t][1..] == [t];
    OneField(g, t, w);
  }

  /** A constant with an annotation. */
  lemma FirstInst(w: Numbering)
    ensures Formed(EntryBlock().insts[0], ISA)
    ensures WriteInst(EntryBlock().insts[0], ISA, w) ==
      ([1] + [0] + [1, 0, 0, 0] + [2, 0, 0, 0]) + [10] + [3] + [3, 0, 2, 1, 0, 0, 0, 0, 0, 0]
  {
    hide Emit, EmitInt, WriteAnnots, EmitAll;
    var i := EntryBlock().insts[0];
    AnnotsOf();
    Small(10);
    Small(3);
    Small(0);
    Positive(258);
    var three: Byte := 3;
    All1(three, WriteByte);
    OneField(i.fields[0], ValueShape, w);
  }

  /** A jump. */
  lemma SecondInst(w: Numbering)
    requires SampleNumbers(w)
    ensures Formed(EntryBlock().insts[1], ISA)
    ensures WriteInst(EntryBlock().insts[1], ISA, w) == [0] + [11] + [4, 0, 0, 0]
  {
    hide Emit, EmitInt, WriteAnnots;
    var i := EntryBlock().insts[1];
    AnnotsOf();
    Small(11);
    Small(4);
    OneField(i.fields[0], BlockShape, w);
  }

  /** A PHI. */
  lemma ThirdInst(w: Numbering)
    requires SampleNumbers(w)
    ensures Formed(ExitBlock().insts[0], ISA)
    ensures WriteInst(ExitBlock().insts[0], ISA, w) == [0] + [9] + [3] + [1, 0] + ([3, 0, 0, 0] + [2, 0, 0, 0])
  {
    hide Emit, EmitInt, WriteAnnots, EmitAll;
    var i := ExitBlock().insts[0];
    AnnotsOf();
    Small(9);
    Small(3);
    Small(1);
    Small(2);
    All1(i.incoming[0], PairWriter(w));
  }

  /** An instruction with a result as an operand and an optional number, stored plus one. */
  lemma FourthInst(w: Numbering)
    requires SampleNumbers(w)
    ensures Formed(ExitBlock().insts[1], ISA)
    ensures WriteInst(ExitBlock().insts[1], ISA, w) == [0] + [12] + [3, 0, 0, 0] + [5]
  {
    hide Emit, EmitInt, WriteAnnots;
    var i := ExitBlock().insts[1];
    AnnotsOf();
    Small(12);
    Small(3);
    Small(5);
    TwoFields(i.fields[0], i.fields[1], InstShape, OptScalarShape(1), w);
  }

  lemma TwoInsts(i: Inst, j: Inst, w: Numbering)
    requires Formed(i, ISA) && Formed(j, ISA)
    ensures WriteInsts([i, j], ISA, w) == WriteInst(i, ISA, w) + WriteInst(j, ISA, w)
  {
    hide WriteInst, Formed;
    assert [i, j][1..] == [j] && [j][1..] == [];
    assert WriteInsts([], ISA, w) == [];
    assert WriteInsts([j], ISA, w) == WriteInst(j, ISA, w) + WriteInsts([], ISA, w);
  }

  lemma TwoBlocks(b: BitcodeCode.Block, c: BitcodeCode.Block, w: Numbering)
    requires FormedCode([b, c], ISA)
    ensures forall i :: 0 <= i < |b.insts| ==> Formed(b.insts[i], ISA)
    ensures forall i :: 0 <= i < |c.insts| ==> Formed(c.insts[i], ISA)
    ensures WriteBlocks([b, c], ISA, w) == WriteBlock(b, ISA, w) + WriteBlock(c, ISA, w)
  {
    hide WriteBlock, Formed;
    assert [b, c][0] == b && [b, c][1] == c && [b, c][1..] == [c] && [c][1..] == [];
    assert WriteBlocks([], ISA, w) == [];
    assert WriteBlocks([c], ISA, w) == WriteBlock(c, ISA, w) + WriteBlocks([], ISA, w);
  }

  function EntryBytes(): seq<Byte> {
    [2, 0, 0, 0]
    + (([1] + [0] + [1, 0, 0, 0] + [2, 0, 0, 0]) + [10] + [3] + [3, 0, 2, 1, 0, 0, 0, 0, 0, 0])
    + ([0] + [11] + [4, 0, 0, 0])
  }

  function ExitBytes(): seq<Byte> {
    [2, 0, 0, 0]
    + ([0] + [9] + [3] + [1, 0] + ([3, 0, 0, 0] + [2, 0, 0, 0]))
    + ([0] + [12] + [3, 0, 0, 0] + [5])
  }

  lemma BlocksOf(w: Numbering)
    requires SampleNumbers(w)
    ensures FormedCode([EntryBlock(), ExitBlock()], ISA)
    ensures WriteBlocks([EntryBlock(), ExitBlock()], ISA, w) == EntryBytes() + ExitBytes()
  {
    hide Emit, WriteInst, Formed;
    Small(2);
    FirstInst(w);
    SecondInst(w);
    ThirdInst(w);
    FourthInst(w);
    TwoInsts(EntryBlock().insts[0], EntryBlock().insts[1], w);
    TwoInsts(ExitBlock().insts[0], ExitBlock().insts[1], w);
    assert EntryBlock().insts == [EntryBlock().insts[0], EntryBlock().insts[1]];
    assert ExitBlock().insts == [ExitBlock().insts[0], ExitBlock().insts[1]];
    TwoBlocks(EntryBlock(), ExitBlock(), w);
  }

  function HeadBytes(): seq<Byte> {
    ([16, 0, 0, 0] + [1] + [3] + [1] + [0])
    + ([1, 0, 0, 0, 120] + [1, 0, 0, 0, 121] + [1, 0, 0, 0, 122])
    + ([1, 0] + ([7, 0] + [24, 0, 0, 0] + [8]))
    + ([1, 0] + ([4] + ([1] + [2, 0] + [1, 0])))
  }

  lemma HeadOf()
    ensures WriteHead(SampleFunc()) == HeadBytes()
  {
    hide Emit, EmitAll, EmitName;
    Small(16);
    Small(1);
    Small(3);
    Small(0);
    Small(2);
    Small(7);
    Small(24);
    Small(8);
    Small(4);
    Letter(120);
    Letter(121);
    Letter(122);
    All1(SampleFunc().objects[0], WriteStack);
    All1(SampleFunc().params[0], WriteFlaggedType);
  }

  lemma FuncOf(w: Numbering)
    requires SampleNumbers(w)
    ensures FormedFunc(SampleFunc(), ISA)
    ensures WriteFunc(SampleFunc(), ISA, w) == HeadBytes() + [1, 0, 0, 0] + (EntryBytes() + ExitBytes())
  {
    hide Emit, WriteHead, WriteBlocks, FormedCode;
    Small(1);
    HeadOf();
    BlocksOf(w);
  }

  // The names

  function NameBytes(): seq<Byte> {
    [0x4C, 0x4C, 0x49, 0x52] + [1, 0, 0, 0, 109]
    + ([1, 0, 0, 0] + [1, 0, 0, 0, 101])
    + ([1, 0, 0, 0] + ([1, 0, 0, 0, 100] + ([1, 0, 0, 0] + ([1, 0, 0, 0] + [1, 0, 0, 0, 97]))))
    + ([1, 0, 0, 0] + ([1, 0, 0, 0, 102] + ([2, 0, 0, 0] + (([1, 0, 0, 0, 98] + [5]) + ([1, 0, 0, 0, 99] + [6])))))
  }

  /** Every file begins with the letters L, L, I and R. */
  lemma MagicFirst(p: Prog, isa: Isa)
    requires FormedProg(p, isa)
    ensures |WriteProg(p, isa)| >= 4 && WriteProg(p, isa)[..4] == [0x4C, 0x4C, 0x49, 0x52]
  {
    hide Emit, FormedProg, Join, EmitList, EmitName, SymbolsOf;
    MagicBytes();
  }

  lemma MagicBytes()
    ensures Emit(4, MAGIC) == [0x4C, 0x4C, 0x49, 0x52]
  {
    hide Emit;
    EmitNext(3, MAGIC);
    EmitNext(2, 0x52494C);
    EmitNext(1, 0x5249);
    EmitNext(0, 0x52);
  }

  lemma ListOf1<T>(x: T, write: T -> seq<Byte>)
    ensures EmitList(4, [x], write) == [1, 0, 0, 0] + write(x)
  {
    hide Emit, EmitAll;
    Small(1);
    All1(x, write);
  }

  lemma SymbolsOfSample()
    ensures SymbolsOf(Sample()) == Symbols([109], [EXTERN], [DataNames([100], [[ATOM]])],
      [FuncNames(FUNC, [(ENTRY, 5), (EXIT, 6)])])
  {
    var p := Sample();
    assert Headers([EntryBlock(), ExitBlock()]) == [(ENTRY, 5), (EXIT, 6)];
    assert NamesOfObject(p.data[0].objects[0]) == [ATOM];
    assert NamesOfData(p.data[0]).objects == [[ATOM]];
    assert SymbolsOf(p).externs == [EXTERN] && SymbolsOf(p).data == [DataNames([100], [[ATOM]])];
    assert SymbolsOf(p).funcs == [FuncNames(FUNC, [(ENTRY, 5), (EXIT, 6)])];
  }

  lemma NamesOf()
    ensures WriteSymbols(SymbolsOf(Sample())) == NameBytes()
  {
    hide Emit, EmitAll, EmitList, EmitName;
    SymbolsOfSample();
    MagicBytes();
    Letter(109);
    ListOf1(EXTERN, EmitName);
    Letter(101);
    ListOf1(ATOM, EmitName);
    Letter(97);
    ListOf1([ATOM], WriteList);
    Letter(100);
    ListOf1(DataNames([100], [[ATOM]]), WriteDataNames);
    BlockNamesOf();
    ListOf1(FuncNames(FUNC, [(ENTRY, 5), (EXIT, 6)]), WriteFuncNames);
    Letter(102);
  }

  lemma BlockNamesOf()
    ensures EmitList(4, [(ENTRY, 5), (EXIT, 6)], WriteHeader) ==
      [2, 0, 0, 0] + (([1, 0, 0, 0, 98] + [5]) + ([1, 0, 0, 0, 99] + [6]))
  {
    hide Emit, EmitAll, EmitName;
    Small(2);
    Small(5);
    Small(6);
    Letter(98);
    Letter(99);
    All2((ENTRY, 5), (EXIT, 6), WriteHeader);
  }

  // The file

  lemma GlobalsOfSample()
    ensures Globals(SymbolsOf(Sample())) == [EXTERN, ATOM, FUNC, ENTRY, EXIT]
    ensures Distinct(Globals(SymbolsOf(Sample())))
  {
    SymbolsOfSample();
    assert Names([(ENTRY, 5), (EXIT, 6)]) == [ENTRY, EXIT];
    assert Concat([[ATOM]]) == [ATOM];
    var d := DataNames([100], [[ATOM]]);
    assert [d][1..] == [] && AtomNames([d]) == [ATOM];
    var f := FuncNames(FUNC, [(ENTRY, 5), (EXIT, 6)]);
    assert [f][1..] == [] && CodeNames([f]) == [FUNC] + [ENTRY, EXIT];
    assert Globals(SymbolsOf(Sample())) == [EXTERN] + [ATOM] + ([FUNC] + [ENTRY, EXIT]);
  }

  lemma ResultsOfSample()
    ensures Results(SampleFunc().blocks, ISA) ==
      [BitcodeValue.Ref(ENTRY, 0, 0), BitcodeValue.Ref(ENTRY, 0, 1), BitcodeValue.Ref(EXIT, 0, 0)]
  {
    var b, c := EntryBlock(), ExitBlock();
    assert ResultsIn(b, ISA, 1) == [BitcodeValue.Ref(ENTRY, 0, 0), BitcodeValue.Ref(ENTRY, 0, 1)];
    assert ResultsIn(b, ISA, 2) == ResultsIn(b, ISA, 1);
    assert ResultsIn(c, ISA, 1) == [BitcodeValue.Ref(EXIT, 0, 0)] && ResultsIn(c, ISA, 2) == ResultsIn(c, ISA, 1);
    assert ResultsOf([b, c], ISA, 0) == [] && ResultsOf([b, c], ISA, 1) == ResultsIn(b, ISA, 2);
  }

  lemma SymbolsNumbered()
    ensures SymbolNumbers(NumbersOf(Sample()))
  {
    hide NumberAll, SymbolsOf, Globals;
    GlobalsOfSample();
    var xs := Globals(SymbolsOf(Sample()));
    NumberAllNumbers(xs, 0);
    var m := NumberAll(xs, 0);
    assert m[xs[0]] == 0 && m[xs[1]] == 1 && m[xs[2]] == 2 && m[xs[3]] == 3 && m[xs[4]] == 4;
  }

  lemma ResultsNumbered(w: Numbering)
    requires w.insts == NumberAll(Results(SampleFunc().blocks, ISA), 1) && SymbolNumbers(w)
    ensures SampleNumbers(w)
  {
    hide NumberAll, Results;
    ResultsOfSample();
    var rs := Results(SampleFunc().blocks, ISA);
    assert rs[0] != rs[1] && rs[0] != rs[2] && rs[1] != rs[2];
    NumberAllNumbers(rs, 1);
    assert w.insts[rs[0]] == 1 && w.insts[rs[1]] == 2 && w.insts[rs[2]] == 3;
  }

  lemma NumbersOfSample()
    ensures SymbolNumbers(NumbersOf(Sample())) && SampleNumbers(NumbersIn(Sample(), ISA, SampleFunc()))
  {
    hide NumberAll, SymbolsOf, Globals, Results, SampleNumbers;
    SymbolsNumbered();
    ResultsNumbered(NumbersIn(Sample(), ISA, SampleFunc()));
  }

  lemma Join1(s: seq<Byte>)
    ensures Join([s]) == s
  {
    assert [s][1..] == [];
  }

  function BodyBytes(): seq<Byte> {
    [1] + ([8, 0, 0, 0] + [2] + [4, 0, 0, 0]
           + [1, 254, 255] + [5, 0, 1, 0, 0, 0, 3, 0, 0, 0, 0, 0, 0, 0] + [7, 5, 0, 0, 0] + [8, 2, 0, 0, 0, 104, 105])
    + (HeadBytes() + [1, 0, 0, 0] + (EntryBytes() + ExitBytes()))
    + ([4] + [1, 1, 1, 0, 0, 0] + [1, 1, 0, 0, 0, 115])
    + ([1, 0, 0, 0] + ([1] + [255, 255, 255, 255] + [2, 0, 0, 0]))
  }

  lemma DataOf(w: Numbering)
    requires SymbolNumbers(w)
    ensures Join(DataPieces(Sample(), w)) ==
      [1] + ([8, 0, 0, 0] + [2] + [4, 0, 0, 0]
             + [1, 254, 255] + [5, 0, 1, 0, 0, 0, 3, 0, 0, 0, 0, 0, 0, 0] + [7, 5, 0, 0, 0] + [8, 2, 0, 0, 0, 104, 105])
  {
    hide Emit, Join, WriteAtom;
    Small(1);
    AtomOf(w);
    var d := Sample().data[0];
    var o := d.objects[0];
    var atoms := seq(|o.atoms|, (k: nat) requires k < |o.atoms| => WriteAtom(o.atoms[k].body, w));
    assert atoms == [WriteAtom(SampleAtom(), w)];
    Join1(atoms[0]);
    var objects := seq(|d.objects|, (j: nat) requires j < |d.objects| => WriteObject(d.objects[j], w));
    assert objects == [WriteObject(o, w)];
    Join1(objects[0]);
    assert DataPieces(Sample(), w) == [WriteData(d, w)];
    Join1(WriteData(d, w));
  }

  lemma SampleFormed()
    ensures FormedProg(Sample(), ISA)
  {
    hide FormedFunc, SymbolsOf, Globals;
    GlobalsOfSample();
    BlocksOfFormed();
    assert Headers(SampleFunc().blocks) == [(ENTRY, 5), (EXIT, 6)];
    assert Names([(ENTRY, 5), (EXIT, 6)]) == [ENTRY, EXIT];
  }

  lemma BlocksOfFormed()
    ensures FormedFunc(SampleFunc(), ISA)
  {
    NumbersOfSample();
    FuncOf(NumbersIn(Sample(), ISA, SampleFunc()));
  }

  /** The whole file. */
  lemma SampleFile()
    ensures FormedProg(Sample(), ISA) && WriteProg(Sample(), ISA) == NameBytes() + BodyBytes()
  {
    hide Emit, EmitList, Join, WriteSymbols, DataPieces, WriteFunc, WriteExtern, WriteXtor, FormedProg, NumberAll,
      NameBytes, HeadBytes, EntryBytes, ExitBytes, SymbolsOf;
    var p := Sample();
    SampleFormed();
    NamesOf();
    NumbersOfSample();
    var w := NumbersOf(p);
    DataOf(w);
    FuncOf(NumbersIn(p, ISA, SampleFunc()));
    ExternOf(w);
    XtorOf(w);
    ListOf1(p.xtors[0], XtorWriter(w));
    PiecesOf(p, w);
  }

  lemma PiecesOf(p: Prog, w: Numbering)
    requires p == Sample() && w == NumbersOf(p) && FormedProg(p, ISA)
    ensures Join(FuncPieces(p, ISA)) == WriteFunc(p.funcs[0], ISA, NumbersIn(p, ISA, p.funcs[0]))
    ensures Join(ExternPieces(p, w)) == WriteExtern(SampleExtern(), w)
  {
    hide WriteFunc, WriteExtern, Join, NumbersIn, NumbersOf;
    assert FuncPieces(p, ISA) == [WriteFunc(p.funcs[0], ISA, NumbersIn(p, ISA, p.funcs[0]))];
    Join1(WriteFunc(p.funcs[0], ISA, NumbersIn(p, ISA, p.funcs[0])));
    assert ExternPieces(p, w) == [WriteExtern(SampleExtern(), w)];
    Join1(WriteExtern(SampleExtern(), w));
  }

  // What is not a file

  lemma OneByte(buf: seq<Byte>, off: nat)
    requires off < |buf|
    ensures ReadData(buf, off, 1) == Got(buf[off], off + 1)
  {
    var s := buf[off..off + 1];
    assert s[0] == buf[off] && s[1..] == [];
  }

  /** Tags that the writer does not use are fatal errors. */
  lemma UnknownTags(buf: seq<Byte>, off: nat, t: Tables)
    requires off < |buf|
    ensures ReadItem(buf, off, t).Got? ==> buf[off] < 9
    ensures ReadValue(buf, off, t).Got? ==> buf[off] < 4
    ensures ReadConst(buf, off).Got? ==> buf[off] < 2
    ensures ReadExpr(buf, off, t).Got? ==> buf[off] == 0
    ensures ReadFlag(buf, off).Got? ==> buf[off] < 4
    ensures ReadAnnot(buf, off).Got? ==> buf[off] < 3
  {
    OneByte(buf, off);
  }

  /** So are unknown kinds of instructions. */
  lemma UnknownKind(annots: seq<Annot>, kind: Byte, isa: Isa, buf: seq<Byte>, off: nat, t: Tables)
    ensures kind !in isa.ops ==> ReadOp(annots, kind, isa, buf, off, t) == Fatal
  {
  }

  /** So are numbers of symbols and results that do not exist, and a PHI without a value. */
  lemma UnknownNumbers(buf: seq<Byte>, off: nat, t: Tables)
    requires off + 4 <= |buf|
    ensures var n := Number(buf[off..off + 4]);
      && (n >= |t.globals| ==> ReadSymbol(buf, off, t) == Fatal)
      && (n > |t.globals| ==> ReadGlobal(buf, off, t) == Fatal)
      && (n > |t.defs| ==> ReadRef(buf, off, t) == Fatal)
    ensures off + 8 <= |buf| && Number(buf[off + 4..off + 8]) == 0 ==> ReadPair(buf, off, t) == Fatal
  {
  }

  /** So are a file that ends too early and one that starts with something else. */
  lemma NotAFile(isa: Isa, buf: seq<Byte>)
    ensures |buf| < 4 || buf[..4] != [0x4C, 0x4C, 0x49, 0x52] ==> ReadProg(isa, buf) == Fatal
    ensures forall off: nat, n: nat :: off + n > |buf| ==> ReadData(buf, off, n) == Fatal
  {
    if |buf| >= 4 && Number(buf[0..4]) == MAGIC {
      forall i: nat | i < 4
        ensures buf[i] == (MAGIC / Width(i)) % 256
      {
        NumberAt(buf[0..4], i);
      }
      Widths();
      assert Width(0) == 1 && Width(3) == 0x100_0000;
      assert buf[..4] == [0x4C, 0x4C, 0x49, 0x52];
    }
  }
}
