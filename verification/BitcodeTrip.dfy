/** The round trip of whole programs. */
module BitcodeTrip {
  import opened Bytes
  import opened BitcodeBody
  import opened BitcodeCode
  import opened BitcodeData
  import opened BitcodeFunc
  import opened BitcodeInst
  import opened BitcodeNames
  import opened BitcodeProg
  import opened BitcodeValue

  function TablesOf(p: Prog): (t: Tables) {
    Tables(Globals(SymbolsOf(p)), [])
  }

  /** Writer and reader number the symbols of a program identically. */
  lemma SymbolsAgree(p: Prog)
    requires Distinct(Globals(SymbolsOf(p)))
    ensures Agree(NumbersOf(p), TablesOf(p))
  {
    NumberAllNumbers(Globals(SymbolsOf(p)), 0);
  }

  /** And the results of every function. */
  lemma FuncAgrees(p: Prog, isa: Isa, i: nat)
    requires FormedProg(p, isa) && i < |p.funcs|
    ensures Numbering1(p.funcs[i].blocks, isa, NumbersIn(p, isa, p.funcs[i]), Globals(SymbolsOf(p)))
  {
    hide Numbers;
    NumberAllNumbers(Globals(SymbolsOf(p)), 0);
    InBlocks(p.funcs[i].blocks, isa, |p.funcs[i].blocks|);
    NumberAllNumbers(Results(p.funcs[i].blocks, isa), 1);
  }

  // Data

  ghost predicate KnownObject(o: Object, w: Numbering) {
    forall k :: 0 <= k < |o.atoms| ==> KnownAtom(o.atoms[k].body, w)
  }

  lemma AtomReads(buf: seq<Byte>, a: Atom, w: Numbering, t: Tables)
    requires Agree(w, t) && KnownAtom(a.body, w) && FitsAtom(a.body, w)
    ensures Reads(buf, AtomReader(t), a.name, WriteAtom(a.body, w), a)
  {
    hide Agree, KnownAtom, FitsAtom, ReadAtom, WriteAtom, At;
    forall off: nat | At(buf, off, WriteAtom(a.body, w))
      ensures AtomReader(t)(a.name, buf, off) == Got(a, off + |WriteAtom(a.body, w)|)
    {
      AtomRoundTrip(buf, off, a.body, w, t);
    }
  }

  function AtomPieces(o: Object, w: Numbering): (r: seq<seq<Byte>>) {
    seq(|o.atoms|, (k: nat) requires k < |o.atoms| => WriteAtom(o.atoms[k].body, w))
  }

  lemma ObjectReads(buf: seq<Byte>, o: Object, w: Numbering, t: Tables)
    requires Agree(w, t) && KnownObject(o, w) && FitsObject(o, w)
    ensures Reads(buf, ObjectReader(t), NamesOfObject(o), WriteObject(o, w), o)
  {
    hide Agree, KnownAtom, FitsAtom, WriteAtom, At, EmitBool, ReadBool, Join, ReadEach, Reads, AtomReader;
    var pieces := AtomPieces(o, w);
    forall k | 0 <= k < |o.atoms|
      ensures Reads(buf, AtomReader(t), NamesOfObject(o)[k], pieces[k], o.atoms[k])
    {
      AtomReads(buf, o.atoms[k], w, t);
    }
    forall off: nat | At(buf, off, WriteObject(o, w))
      ensures ObjectReader(t)(NamesOfObject(o), buf, off) == Got(o, off + |WriteObject(o, w)|)
    {
      AtSplit(buf, off, EmitBool(o.tls), Join(pieces));
      EmitBoolSize(o.tls);
      ReadEmittedBool(buf, off, o.tls);
      ReadEachJoined(buf, off + 1, NamesOfObject(o), pieces, o.atoms, AtomReader(t));
    }
    assert Reads(buf, ObjectReader(t), NamesOfObject(o), WriteObject(o, w), o) by {
      ReadsFrom(buf, ObjectReader(t), NamesOfObject(o), WriteObject(o, w), o);
    }
  }

  lemma ReadsFrom<K, T>(buf: seq<Byte>, read: (K, seq<Byte>, nat) -> Parsed<T>, k: K, s: seq<Byte>, x: T)
    requires forall off: nat :: At(buf, off, s) ==> read(k, buf, off) == Got(x, off + |s|)
    ensures Reads(buf, read, k, s, x)
  {
  }

  ghost predicate KnownObjects(d: Data, w: Numbering) {
    forall j :: 0 <= j < |d.objects| ==> KnownObject(d.objects[j], w)
  }

  function ObjectPieces(d: Data, w: Numbering): (r: seq<seq<Byte>>) {
    seq(|d.objects|, (j: nat) requires j < |d.objects| => WriteObject(d.objects[j], w))
  }

  lemma DataReads(buf: seq<Byte>, d: Data, w: Numbering, t: Tables)
    requires Agree(w, t) && KnownObjects(d, w) && FitsData(d, w)
    ensures Reads(buf, DataReader(t), NamesOfData(d), WriteData(d, w), d)
  {
    hide Agree, KnownObject, FitsObject, WriteObject, At, Join, ReadEach, Reads, ObjectReader;
    var pieces := ObjectPieces(d, w);
    forall j | 0 <= j < |d.objects|
      ensures Reads(buf, ObjectReader(t), NamesOfData(d).objects[j], pieces[j], d.objects[j])
    {
      ObjectReads(buf, d.objects[j], w, t);
    }
    forall off: nat | At(buf, off, WriteData(d, w))
      ensures DataReader(t)(NamesOfData(d), buf, off) == Got(d, off + |WriteData(d, w)|)
    {
      ReadEachJoined(buf, off, NamesOfData(d).objects, pieces, d.objects, ObjectReader(t));
    }
    ReadsFrom(buf, DataReader(t), NamesOfData(d), WriteData(d, w), d);
  }

  lemma FuncReads(buf: seq<Byte>, p: Prog, isa: Isa, i: nat)
    requires FormedProg(p, isa) && KnownProg(p, isa) && FitsProg(p, isa) && i < |p.funcs|
    ensures Reads(buf, FuncReader(isa, TablesOf(p)), NamesOfFunc(p.funcs[i]), FuncPieces(p, isa)[i],
      SettleProg(p, isa).funcs[i])
  {
    hide FormedFunc, KnownFunc, FitsFunc, Numbering1, WriteFunc, ReadFunc, SettleFunc, At, NumbersIn, Headers, Globals,
      SymbolsOf;
    FuncAgrees(p, isa, i);
    var f, w := p.funcs[i], NumbersIn(p, isa, p.funcs[i]);
    forall off: nat | At(buf, off, WriteFunc(f, isa, w))
      ensures FuncReader(isa, TablesOf(p))(NamesOfFunc(f), buf, off) ==
        Got(SettleFunc(f, isa, w), off + |WriteFunc(f, isa, w)|)
    {
      FuncRoundTrip(buf, off, f, isa, w, Globals(SymbolsOf(p)));
    }
  }

  lemma ExternReads(buf: seq<Byte>, x: Extern, w: Numbering, t: Tables)
    requires Agree(w, t) && t.defs == [] && KnownExtern(x.body, w) && FitsExtern(x.body, w)
    ensures Reads(buf, ExternReader(t), x.name, WriteExtern(x.body, w), x)
  {
    hide Agree, KnownExtern, FitsExtern, ReadExtern, WriteExtern, At;
    forall off: nat | At(buf, off, WriteExtern(x.body, w))
      ensures ExternReader(t)(x.name, buf, off) == Got(x, off + |WriteExtern(x.body, w)|)
    {
      ExternRoundTrip(buf, off, x.body, w, t);
    }
  }

  lemma XtorsRoundTrip(buf: seq<Byte>, off: nat, xs: seq<Xtor>, w: Numbering, t: Tables)
    requires Agree(w, t) && |xs| < Width(4) && At(buf, off, EmitList(4, xs, XtorWriter(w)))
    requires forall i :: 0 <= i < |xs| ==> xs[i].func in w.symbols && FitsXtor(xs[i], w)
    ensures ReadList(buf, off, 4, XtorReader(t)) == Got(xs, off + |EmitList(4, xs, XtorWriter(w))|)
  {
    hide Agree, ReadList, EmitList, ReadXtor, WriteXtor, FitsXtor, At;
    forall i | 0 <= i < |xs|
      ensures Inverts(buf, XtorReader(t), XtorWriter(w), xs[i])
    {
      forall o: nat | At(buf, o, XtorWriter(w)(xs[i]))
        ensures XtorReader(t)(buf, o) == Got(xs[i], o + |XtorWriter(w)(xs[i])|)
      {
        XtorRoundTrip(buf, o, xs[i], w, t);
      }
    }
    ListRoundTrip(buf, off, 4, xs, XtorReader(t), XtorWriter(w));
  }

  // Sections of the file

  lemma DataSection(buf: seq<Byte>, off: nat, p: Prog, isa: Isa)
    requires FormedProg(p, isa) && KnownProg(p, isa) && FitsProg(p, isa)
    requires At(buf, off, Join(DataPieces(p, NumbersOf(p))))
    ensures ReadEach(buf, off, SymbolsOf(p).data, DataReader(TablesOf(p))) ==
      Got(p.data, off + |Join(DataPieces(p, NumbersOf(p)))|)
  {
    hide Agree, Numbers, Reads, FitsData, WriteData, NamesOfData, DataReader, At, Join, Globals, NumbersOf, KnownAtom,
      FormedFunc;
    SymbolsAgree(p);
    forall i | 0 <= i < |p.data|
      ensures Reads(buf, DataReader(TablesOf(p)), SymbolsOf(p).data[i], DataPieces(p, NumbersOf(p))[i], p.data[i])
    {
      DataReads(buf, p.data[i], NumbersOf(p), TablesOf(p));
    }
    ReadEachJoined(buf, off, SymbolsOf(p).data, DataPieces(p, NumbersOf(p)), p.data, DataReader(TablesOf(p)));
  }

  lemma FuncSection(buf: seq<Byte>, off: nat, p: Prog, isa: Isa)
    requires FormedProg(p, isa) && KnownProg(p, isa) && FitsProg(p, isa) && At(buf, off, Join(FuncPieces(p, isa)))
    ensures ReadEach(buf, off, SymbolsOf(p).funcs, FuncReader(isa, TablesOf(p)))
         == Got(SettleProg(p, isa).funcs, off + |Join(FuncPieces(p, isa))|)
  {
    hide FormedProg, KnownProg, FitsProg, Reads, FuncReader, At, Join, FuncPieces, TablesOf;
    var names, settled := SymbolsOf(p).funcs, SettleProg(p, isa).funcs;
    PiecesSize(p, isa);
    forall i | 0 <= i < |p.funcs|
      ensures Reads(buf, FuncReader(isa, TablesOf(p)), names[i], FuncPieces(p, isa)[i], settled[i])
    {
      FuncReads(buf, p, isa, i);
    }
    ReadEachJoined(buf, off, names, FuncPieces(p, isa), settled, FuncReader(isa, TablesOf(p)));
  }

  lemma PiecesSize(p: Prog, isa: Isa)
    requires FormedProg(p, isa)
    ensures |FuncPieces(p, isa)| == |p.funcs|
  {
  }

  lemma ExternSection(buf: seq<Byte>, off: nat, p: Prog, isa: Isa)
    requires FormedProg(p, isa) && KnownProg(p, isa) && FitsProg(p, isa)
    requires At(buf, off, Join(ExternPieces(p, NumbersOf(p))))
    ensures ReadEach(buf, off, SymbolsOf(p).externs, ExternReader(TablesOf(p))) ==
      Got(p.externs, off + |Join(ExternPieces(p, NumbersOf(p)))|)
  {
    hide Agree, Numbers, Reads, FitsExtern, WriteExtern, KnownExtern, ExternReader, At, Join, Globals, NumbersOf,
      FormedFunc;
    SymbolsAgree(p);
    forall i | 0 <= i < |p.externs|
      ensures Reads(buf, ExternReader(TablesOf(p)), SymbolsOf(p).externs[i], ExternPieces(p, NumbersOf(p))[i],
        p.externs[i])
    {
      ExternReads(buf, p.externs[i], NumbersOf(p), TablesOf(p));
    }
    ReadEachJoined(buf, off, SymbolsOf(p).externs, ExternPieces(p, NumbersOf(p)), p.externs, ExternReader(TablesOf(p)));
  }

  lemma Readable(p: Prog, isa: Isa)
    requires FormedProg(p, isa) && KnownProg(p, isa) && FitsProg(p, isa)
    ensures ReadProg(isa, WriteProg(p, isa)) == Got(SettleProg(p, isa), |WriteProg(p, isa)|)
  {
    hide FormedProg, KnownProg, FitsProg, WriteSymbols, ReadSymbols, Join, ReadEach, SymbolsOf, DataPieces, FuncPieces,
         ExternPieces, EmitList, ReadList, Globals, NumbersOf, NumbersIn, At, DataReader, FuncReader, ExternReader,
           XtorReader, XtorWriter;
    var buf := WriteProg(p, isa);
    var a, b, c := WriteSymbols(SymbolsOf(p)), Join(DataPieces(p, NumbersOf(p))), Join(FuncPieces(p, isa));
    var d, e := Join(ExternPieces(p, NumbersOf(p))), EmitList(4, p.xtors, XtorWriter(NumbersOf(p)));
    WholeAt(buf);
    AtSplit(buf, 0, a + b + c + d, e);
    AtSplit(buf, 0, a + b + c, d);
    AtSplit(buf, 0, a + b, c);
    AtSplit(buf, 0, a, b);
    FitsParts(p, isa);
    SymbolsOfFileRoundTrip(buf, 0, SymbolsOf(p));
    DataSection(buf, |a|, p, isa);
    FuncSection(buf, |a| + |b|, p, isa);
    ExternSection(buf, |a| + |b| + |c|, p, isa);
    XtorsRoundTrip(buf, |a| + |b| + |c| + |d|, p.xtors, NumbersOf(p), TablesOf(p));
    NameKept(p);
  }

  lemma WholeAt(buf: seq<Byte>)
    ensures At(buf, 0, buf)
  {
  }

  lemma NameKept(p: Prog)
    ensures SymbolsOf(p).name == p.name
  {
  }

  lemma FitsParts(p: Prog, isa: Isa)
    requires FormedProg(p, isa) && KnownProg(p, isa) && FitsProg(p, isa)
    ensures FitsSymbols(SymbolsOf(p)) && Agree(NumbersOf(p), TablesOf(p)) && |p.xtors| < Width(4)
    ensures forall i :: 0 <= i < |p.xtors| ==>
      p.xtors[i].func in NumbersOf(p).symbols && FitsXtor(p.xtors[i], NumbersOf(p))
  {
    hide Agree, FitsSymbols, FitsXtor;
    SymbolsAgree(p);
  }

  // The other direction

  lemma {:induction false} AtomsNamed(buf: seq<Byte>, off: nat, names: seq<Name>, t: Tables)
    requires ReadEach(buf, off, names, AtomReader(t)).Got?
    ensures forall k :: 0 <= k < |names| ==> ReadEach(buf, off, names, AtomReader(t)).value[k].name == names[k]
  {
    forall k | 0 <= k < |names|
      ensures ReadEach(buf, off, names, AtomReader(t)).value[k].name == names[k]
    {
      var o := ReadEachFrom(buf, off, names, AtomReader(t), k);
    }
  }

  lemma ObjectNamed(buf: seq<Byte>, off: nat, names: seq<Name>, t: Tables)
    requires ObjectReader(t)(names, buf, off).Got?
    ensures NamesOfObject(ObjectReader(t)(names, buf, off).value) == names
  {
    hide AtomReader;
    var o := ReadBool(buf, off);
    AtomsNamed(buf, o.next, names, t);
  }

  lemma DataNamed(buf: seq<Byte>, off: nat, d: DataNames, t: Tables)
    requires DataReader(t)(d, buf, off).Got?
    ensures NamesOfData(DataReader(t)(d, buf, off).value) == d
  {
    hide ObjectReader, NamesOfObject;
    var r := DataReader(t)(d, buf, off).value;
    forall j | 0 <= j < |d.objects|
      ensures NamesOfObject(r.objects[j]) == d.objects[j]
    {
      var o := ReadEachFrom(buf, off, d.objects, ObjectReader(t), j);
      ObjectNamed(buf, o, d.objects[j], t);
    }
  }

  lemma FuncNamed(isa: Isa, buf: seq<Byte>, off: nat, f: FuncNames, t: Tables)
    requires FuncReader(isa, t)(f, buf, off).Got?
    ensures NamesOfFunc(FuncReader(isa, t)(f, buf, off).value) == f
  {
    hide ReadFlags, ReadTarget, ReadObjects, ReadParams, ReadGlobal, ReadBlocks, Verdict, Finish;
  }

  /** A program that was read has the symbols that were read first. */
  lemma SymbolsRead(s: Symbols, isa: Isa, buf: seq<Byte>, off: nat)
    requires ReadBodies(s, isa, buf, off).Got?
    ensures SymbolsOf(ReadBodies(s, isa, buf, off).value) == s
  {
    hide DataReader, FuncReader, ReadExtern, NamesOfData, NamesOfFunc, ReadList, Globals;
    var t := Tables(Globals(s), []);
    var r := ReadBodies(s, isa, buf, off).value;
    var data := ReadEach(buf, off, s.data, DataReader(t));
    var funcs := ReadEach(buf, data.next, s.funcs, FuncReader(isa, t));
    forall i | 0 <= i < |s.data|
      ensures NamesOfData(r.data[i]) == s.data[i]
    {
      var o := ReadEachFrom(buf, off, s.data, DataReader(t), i);
      DataNamed(buf, o, s.data[i], t);
    }
    forall i | 0 <= i < |s.funcs|
      ensures NamesOfFunc(r.funcs[i]) == s.funcs[i]
    {
      var o := ReadEachFrom(buf, data.next, s.funcs, FuncReader(isa, t), i);
      FuncNamed(isa, buf, o, s.funcs[i], t);
    }
    forall i | 0 <= i < |s.externs|
      ensures r.externs[i].name == s.externs[i]
    {
      var o := ReadEachFrom(buf, funcs.next, s.externs, ExternReader(t), i);
    }
  }

  /** Settling changes no name. */
  lemma SettleSymbols(p: Prog, isa: Isa)
    ensures SymbolsOf(SettleProg(p, isa)) == SymbolsOf(p)
  {
    hide NumbersIn;
    forall i | 0 <= i < |p.funcs|
      ensures NamesOfFunc(SettleProg(p, isa).funcs[i]) == NamesOfFunc(p.funcs[i])
    {
      SettleHeaders(p.funcs[i], isa, NumbersIn(p, isa, p.funcs[i]));
    }
  }

  lemma SettleHeaders(f: Func, isa: Isa, w: Numbering)
    ensures Headers(SettleCode(f.blocks, isa, w)) == Headers(f.blocks)
  {
    hide Settle, Before;
  }

  lemma AtomsFit(buf: seq<Byte>, off: nat, names: seq<Name>, w: Numbering, t: Tables)
    requires Agree(w, t) && ObjectReader(t)(names, buf, off).Got?
    ensures FitsObject(ObjectReader(t)(names, buf, off).value, w)
  {
    hide Agree, ReadAtom, FitsAtom;
    var o := ReadBool(buf, off);
    var r := ObjectReader(t)(names, buf, off).value;
    forall k | 0 <= k < |r.atoms|
      ensures FitsAtom(r.atoms[k].body, w)
    {
      var o' := ReadEachFrom(buf, o.next, names, AtomReader(t), k);
      AtomFits(buf, o', w, t);
    }
  }

  lemma ObjectsFit(buf: seq<Byte>, off: nat, d: DataNames, w: Numbering, t: Tables)
    requires Agree(w, t) && DataReader(t)(d, buf, off).Got?
    ensures FitsData(DataReader(t)(d, buf, off).value, w)
  {
    hide Agree, ObjectReader, FitsObject;
    var r := DataReader(t)(d, buf, off).value;
    forall j | 0 <= j < |r.objects|
      ensures FitsObject(r.objects[j], w)
    {
      var o := ReadEachFrom(buf, off, d.objects, ObjectReader(t), j);
      AtomsFit(buf, o, d.objects[j], w, t);
    }
  }

  lemma XtorsFit(buf: seq<Byte>, off: nat, w: Numbering, t: Tables)
    requires Agree(w, t) && ReadList(buf, off, 4, XtorReader(t)).Got?
    ensures forall i :: 0 <= i < |ReadList(buf, off, 4, XtorReader(t)).value| ==>
      FitsXtor(ReadList(buf, off, 4, XtorReader(t)).value[i], w)
  {
    hide Agree, ReadXtor, FitsXtor, ReadList;
    var P := (x: Xtor) => FitsXtor(x, w);
    forall o: nat | XtorReader(t)(buf, o).Got?
      ensures P(XtorReader(t)(buf, o).value)
    {
      XtorFits(buf, o, w, t);
    }
    ListHolds(buf, off, 4, XtorReader(t), P);
  }

  /** A program that is read back fits. */
  lemma ReadableFits(p: Prog, isa: Isa, buf: seq<Byte>)
    requires FormedProg(p, isa) && ReadProg(isa, buf).Got? && ReadProg(isa, buf).value == SettleProg(p, isa)
    ensures FitsProg(p, isa)
  {
    hide Agree, Numbers, ReadSymbols, FitsSymbols, ReadList, Globals, NumbersOf, NumbersIn, DataReader, FitsData,
      ReadFunc,
         FitsFunc, SettleFunc, ReadExtern, FitsExtern, FitsXtor, FormedFunc, Distinct, ReadEach, XtorReader, Numbering1;
    var names := ReadSymbols(buf, 0);
    SymbolsRead(names.value, isa, buf, names.next);
    SettleSymbols(p, isa);
    assert names.value == SymbolsOf(p);
    SymbolsAgree(p);
    var s, t, w := SymbolsOf(p), TablesOf(p), NumbersOf(p);
    var data := ReadEach(buf, names.next, s.data, DataReader(t));
    var funcs := ReadEach(buf, data.next, s.funcs, FuncReader(isa, t));
    var externs := ReadEach(buf, funcs.next, s.externs, ExternReader(t));
    forall i | 0 <= i < |p.data|
      ensures FitsData(p.data[i], w)
    {
      var o := ReadEachFrom(buf, names.next, s.data, DataReader(t), i);
      ObjectsFit(buf, o, s.data[i], w, t);
    }
    forall i | 0 <= i < |p.funcs|
      ensures FitsFunc(p.funcs[i], isa, NumbersIn(p, isa, p.funcs[i]))
    {
      var o := ReadEachFrom(buf, data.next, s.funcs, FuncReader(isa, t), i);
      FuncAgrees(p, isa, i);
      FuncFits(buf, o, p.funcs[i], isa, NumbersIn(p, isa, p.funcs[i]), t.globals);
    }
    forall i | 0 <= i < |p.externs|
      ensures FitsExtern(p.externs[i].body, w)
    {
      var o := ReadEachFrom(buf, funcs.next, s.externs, ExternReader(t), i);
      ExternFits(buf, o, w, t);
    }
    XtorsFit(buf, externs.next, w, t);
  }

  /** A program is read back, up to the order of the incoming values of its PHIs, exactly when
      everything in it fits. */
  lemma RoundTrip(p: Prog, isa: Isa)
    requires FormedProg(p, isa) && KnownProg(p, isa)
    ensures ReadProg(isa, WriteProg(p, isa)) == Got(SettleProg(p, isa), |WriteProg(p, isa)|) <==> FitsProg(p, isa)
  {
    hide FormedProg, KnownProg, FitsProg, WriteProg, ReadProg, SettleProg;
    if FitsProg(p, isa) {
      Readable(p, isa);
    }
    if ReadProg(isa, WriteProg(p, isa)) == Got(SettleProg(p, isa), |WriteProg(p, isa)|) {
      ReadableFits(p, isa, WriteProg(p, isa));
    }
  }
}
