/** Whole programs in the bitcode stream (core/bitcode_writer.cpp:41-114,
    core/bitcode_reader.cpp:58-130). */
module BitcodeProg {
  import opened Bytes
  import opened BitcodeBody
  import opened BitcodeCode
  import opened BitcodeData
  import opened BitcodeFunc
  import opened BitcodeInst
  import opened BitcodeNames
  import opened BitcodeValue

  datatype Atom = Atom(name: Name, body: AtomBody)
  datatype Object = Object(tls: bool, atoms: seq<Atom>)
  datatype Data = Data(name: Name, objects: seq<Object>)
  datatype Extern = Extern(name: Name, body: ExternBody)

  /** The blocks of every function are listed in the reverse post-order in which the writer
      visits them. */
  datatype Prog = Prog(name: Name, data: seq<Data>, funcs: seq<Func>, externs: seq<Extern>, xtors: seq<Xtor>)

  // The symbols of a program

  function NamesOfObject(o: Object): (r: seq<Name>) {
    seq(|o.atoms|, (i: nat) requires i < |o.atoms| => o.atoms[i].name)
  }

  function NamesOfData(d: Data): (r: DataNames) {
    DataNames(d.name, seq(|d.objects|, (i: nat) requires i < |d.objects| => NamesOfObject(d.objects[i])))
  }

  function NamesOfFunc(f: Func): (r: FuncNames) {
    FuncNames(f.name, Headers(f.blocks))
  }

  function SymbolsOf(p: Prog): (r: Symbols) {
    Symbols(p.name,
      seq(|p.externs|, (i: nat) requires i < |p.externs| => p.externs[i].name),
      seq(|p.data|, (i: nat) requires i < |p.data| => NamesOfData(p.data[i])),
      seq(|p.funcs|, (i: nat) requires i < |p.funcs| => NamesOfFunc(p.funcs[i])))
  }

  function NumbersOf(p: Prog): (w: Numbering) {
    Numbering(NumberAll(Globals(SymbolsOf(p)), 0), map[])
  }

  /** The numbering while one function is written. */
  function NumbersIn(p: Prog, isa: Isa, f: Func): (w: Numbering) {
    NumbersOf(p).(insts := NumberAll(Results(f.blocks, isa), 1))
  }

  /** What a program guarantees: every symbol has a name of its own. */
  ghost predicate FormedProg(p: Prog, isa: Isa) {
    && Distinct(Globals(SymbolsOf(p)))
    && forall i :: 0 <= i < |p.funcs| ==> FormedFunc(p.funcs[i], isa) && Distinct(Names(Headers(p.funcs[i].blocks)))
  }

  ghost predicate KnownData(p: Prog, w: Numbering) {
    forall i, j, k :: 0 <= i < |p.data| && 0 <= j < |p.data[i].objects| && 0 <= k < |p.data[i].objects[j].atoms| ==>
      KnownAtom(p.data[i].objects[j].atoms[k].body, w)
  }

  /** Every operand refers to a symbol or an instruction of the program. */
  ghost predicate KnownProg(p: Prog, isa: Isa) {
    && KnownData(p, NumbersOf(p))
    && (forall i :: 0 <= i < |p.funcs| ==> KnownFunc(p.funcs[i], NumbersIn(p, isa, p.funcs[i])))
    && (forall i :: 0 <= i < |p.externs| ==> KnownExtern(p.externs[i].body, NumbersOf(p)))
    && (forall i :: 0 <= i < |p.xtors| ==> p.xtors[i].func in NumbersOf(p).symbols)
  }

  ghost predicate FitsObject(o: Object, w: Numbering) {
    forall k :: 0 <= k < |o.atoms| ==> FitsAtom(o.atoms[k].body, w)
  }

  ghost predicate FitsData(d: Data, w: Numbering) {
    forall j :: 0 <= j < |d.objects| ==> FitsObject(d.objects[j], w)
  }

  /** Every length and number fits the width it is written with, and operands that are not
      incoming values of PHIs are computed earlier. */
  ghost predicate FitsProg(p: Prog, isa: Isa) {
    && FitsSymbols(SymbolsOf(p))
    && (forall i :: 0 <= i < |p.data| ==> FitsData(p.data[i], NumbersOf(p)))
    && (forall i :: 0 <= i < |p.funcs| ==> FitsFunc(p.funcs[i], isa, NumbersIn(p, isa, p.funcs[i])))
    && (forall i :: 0 <= i < |p.externs| ==> FitsExtern(p.externs[i].body, NumbersOf(p)))
    && |p.xtors| < Width(4) && (forall i :: 0 <= i < |p.xtors| ==> FitsXtor(p.xtors[i], NumbersOf(p)))
  }

  /** The program with the incoming values of its PHIs in the order in which they are read. */
  function SettleProg(p: Prog, isa: Isa): (r: Prog) {
    p.(funcs := seq(|p.funcs|, (i: nat) requires i < |p.funcs| => SettleFunc(p.funcs[i], isa,
      NumbersIn(p, isa, p.funcs[i]))))
  }

  // Writing

  function WriteObject(o: Object, w: Numbering): (s: seq<Byte>) {
    EmitBool(o.tls) + Join(seq(|o.atoms|, (k: nat) requires k < |o.atoms| => WriteAtom(o.atoms[k].body, w)))
  }

  function WriteData(d: Data, w: Numbering): (s: seq<Byte>) {
    Join(seq(|d.objects|, (j: nat) requires j < |d.objects| => WriteObject(d.objects[j], w)))
  }

  function DataPieces(p: Prog, w: Numbering): (r: seq<seq<Byte>>) {
    seq(|p.data|, (i: nat) requires i < |p.data| => WriteData(p.data[i], w))
  }

  function FuncPieces(p: Prog, isa: Isa): (r: seq<seq<Byte>>)
    requires FormedProg(p, isa)
  {
    seq(|p.funcs|, (i: nat) requires i < |p.funcs| => WriteFunc(p.funcs[i], isa, NumbersIn(p, isa, p.funcs[i])))
  }

  function ExternPieces(p: Prog, w: Numbering): (r: seq<seq<Byte>>) {
    seq(|p.externs|, (i: nat) requires i < |p.externs| => WriteExtern(p.externs[i].body, w))
  }

  function XtorWriter(w: Numbering): Xtor -> seq<Byte> {
    (x: Xtor) => WriteXtor(x, w)
  }

  function WriteProg(p: Prog, isa: Isa): (s: seq<Byte>)
    requires FormedProg(p, isa)
  {
    WriteSymbols(SymbolsOf(p)) + Join(DataPieces(p, NumbersOf(p))) + Join(FuncPieces(p, isa)) +
      Join(ExternPieces(p, NumbersOf(p)))
    + EmitList(4, p.xtors, XtorWriter(NumbersOf(p)))
  }

  // Reading

  function ReadNamedAtom(name: Name, buf: seq<Byte>, off: nat, t: Tables): (r: Parsed<Atom>) {
    var (body, o) :- ReadAtom(buf, off, t);
    Got(Atom(name, body), o)
  }

  function AtomReader(t: Tables): (Name, seq<Byte>, nat) -> Parsed<Atom> {
    (name: Name, buf: seq<Byte>, off: nat) => ReadNamedAtom(name, buf, off, t)
  }

  function ReadObject(names: seq<Name>, buf: seq<Byte>, off: nat, t: Tables): (r: Parsed<Object>) {
    var (tls, o) :- ReadBool(buf, off);
    var (atoms, o1) :- ReadEach(buf, o, names, AtomReader(t));
    Got(Object(tls, atoms), o1)
  }

  function ObjectReader(t: Tables): (seq<Name>, seq<Byte>, nat) -> Parsed<Object> {
    (names: seq<Name>, buf: seq<Byte>, off: nat) => ReadObject(names, buf, off, t)
  }

  function ReadNamedData(d: DataNames, buf: seq<Byte>, off: nat, t: Tables): (r: Parsed<Data>) {
    var (objects, o) :- ReadEach(buf, off, d.objects, ObjectReader(t));
    Got(Data(d.name, objects), o)
  }

  function DataReader(t: Tables): (DataNames, seq<Byte>, nat) -> Parsed<Data> {
    (d: DataNames, buf: seq<Byte>, off: nat) => ReadNamedData(d, buf, off, t)
  }

  function FuncReader(isa: Isa, t: Tables): (FuncNames, seq<Byte>, nat) -> Parsed<Func> {
    (f: FuncNames, buf: seq<Byte>, off: nat) => ReadFunc(f.name, f.blocks, isa, buf, off, t.globals)
  }

  function ReadNamedExtern(name: Name, buf: seq<Byte>, off: nat, t: Tables): (r: Parsed<Extern>) {
    var (body, o) :- ReadExtern(buf, off, t);
    Got(Extern(name, body), o)
  }

  function ExternReader(t: Tables): (Name, seq<Byte>, nat) -> Parsed<Extern> {
    (name: Name, buf: seq<Byte>, off: nat) => ReadNamedExtern(name, buf, off, t)
  }

  function XtorReader(t: Tables): (seq<Byte>, nat) -> Parsed<Xtor> {
    (buf: seq<Byte>, off: nat) => ReadXtor(buf, off, t)
  }

  /** What follows the names. */
  function ReadBodies(s: Symbols, isa: Isa, buf: seq<Byte>, off: nat): (r: Parsed<Prog>) {
    var t := Tables(Globals(s), []);
    var (data, o) :- ReadEach(buf, off, s.data, DataReader(t));
    var (funcs, o1) :- ReadEach(buf, o, s.funcs, FuncReader(isa, t));
    var (externs, o2) :- ReadEach(buf, o1, s.externs, ExternReader(t));
    var (xtors, o3) :- ReadList(buf, o2, 4, XtorReader(t));
    Got(Prog(s.name, data, funcs, externs, xtors), o3)
  }

  function ReadProg(isa: Isa, buf: seq<Byte>): (r: Parsed<Prog>) {
    var (s, o) :- ReadSymbols(buf, 0);
    ReadBodies(s, isa, buf, o)
  }
}
