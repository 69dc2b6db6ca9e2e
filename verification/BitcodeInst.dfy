/** Instructions in the bitcode stream: the fields of an instruction follow the layout of its
    kind; PHI instructions may refer to results that come later (core/bitcode_writer.cpp:254-285,
    core/bitcode_reader.cpp:258-293, util/inst_gen/get_bitcode.cpp:24-167,
    core/insts/phi.cpp:41-53). */
module BitcodeInst {
  import opened Bytes
  import opened BitcodeAnnot
  import opened BitcodeValue
  import opened Options

  datatype Field =
    | InstField(r: Option<Ref>) | InstList(rs: seq<Option<Ref>>) | ValueField(v: Value)
    | BlockField(b: Name) | BlockList(bs: seq<Name>) | FlagList(fs: seq<TypeFlag>)
    | Scalar(n: nat) | OptScalar(o: Option<nat>)

  datatype Shape =
    | InstShape | InstsShape | ValueShape | BlockShape | BlocksShape | FlagsShape
    | ScalarShape(width: nat) | OptScalarShape(width: nat)

  predicate Matches(f: Field, s: Shape) {
    match s
    case InstShape => f.InstField?
    case InstsShape => f.InstList?
    case ValueShape => f.ValueField?
    case BlockShape => f.BlockField?
    case BlocksShape => f.BlockList?
    case FlagsShape => f.FlagList?
    case ScalarShape(_) => f.Scalar?
    case OptScalarShape(_) => f.OptScalar?
  }

  predicate KnownField(f: Field, w: Numbering) {
    match f
    case InstField(r) => KnownRef(r, w)
    case InstList(rs) => forall i :: 0 <= i < |rs| ==> KnownRef(rs[i], w)
    case ValueField(v) => KnownValue(v, w)
    case BlockField(b) => b in w.symbols
    case BlockList(bs) => forall i :: 0 <= i < |bs| ==> bs[i] in w.symbols
    case FlagList(_) => true
    case Scalar(_) => true
    case OptScalar(_) => true
  }

  /** The field survives: numbers fit, and results are among the first k of the function. An
      optional scalar is stored plus one, so the largest number of its width does not fit. */
  predicate FitsField(f: Field, s: Shape, w: Numbering, k: nat)
    requires Matches(f, s)
  {
    match f
    case InstField(r) => FitsRef(r, w, k)
    case InstList(rs) => |rs| < Width(2) && forall i :: 0 <= i < |rs| ==> FitsRef(rs[i], w, k)
    case ValueField(v) => FitsValue(v, w, k)
    case BlockField(b) => FitsSymbol(b, w)
    case BlockList(bs) => |bs| < Width(2) && forall i :: 0 <= i < |bs| ==> FitsSymbol(bs[i], w)
    case FlagList(fs) => |fs| < Width(2) && forall i :: 0 <= i < |fs| ==> FitsFlag(fs[i])
    case Scalar(n) => n < Width(s.width)
    case OptScalar(o) => o.Some? ==> o.value + 1 < Width(s.width)
  }

  function RefWriter(w: Numbering): Option<Ref> -> seq<Byte> {
    (r: Option<Ref>) => WriteRef(r, w)
  }

  function RefReader(t: Tables): (seq<Byte>, nat) -> Parsed<Option<Ref>> {
    (buf: seq<Byte>, off: nat) => ReadRef(buf, off, t)
  }

  function SymbolWriter(w: Numbering): Name -> seq<Byte> {
    (x: Name) => WriteSymbol(x, w)
  }

  function SymbolReader(t: Tables): (seq<Byte>, nat) -> Parsed<Name> {
    (buf: seq<Byte>, off: nat) => ReadSymbol(buf, off, t)
  }

  function WriteField(f: Field, s: Shape, w: Numbering): (out: seq<Byte>)
    requires Matches(f, s)
  {
    match f
    case InstField(r) => WriteRef(r, w)
    case InstList(rs) => EmitList(2, rs, RefWriter(w))
    case ValueField(v) => WriteValue(v, w)
    case BlockField(b) => WriteSymbol(b, w)
    case BlockList(bs) => EmitList(2, bs, SymbolWriter(w))
    case FlagList(fs) => EmitList(2, fs, WriteFlag)
    case Scalar(n) => Emit(s.width, n)
    case OptScalar(o) => Emit(s.width, if o.Some? then o.value + 1 else 0)
  }

  function ReadField(s: Shape, buf: seq<Byte>, off: nat, t: Tables): (r: Parsed<Field>)
    ensures r.Got? ==> Matches(r.value, s)
  {
    match s
    case InstShape => var (r, o) :- ReadRef(buf, off, t); Got(InstField(r), o)
    case InstsShape => var (rs, o) :- ReadList(buf, off, 2, RefReader(t)); Got(InstList(rs), o)
    case ValueShape => var (v, o) :- ReadValue(buf, off, t); Got(ValueField(v), o)
    case BlockShape => var (b, o) :- ReadSymbol(buf, off, t); Got(BlockField(b), o)
    case BlocksShape => var (bs, o) :- ReadList(buf, off, 2, SymbolReader(t)); Got(BlockList(bs), o)
    case FlagsShape => var (fs, o) :- ReadList(buf, off, 2, ReadFlag); Got(FlagList(fs), o)
    case ScalarShape(width) => var (n, o) :- ReadData(buf, off, width); Got(Scalar(n), o)
    case OptScalarShape(width) =>
      var (n, o) :- ReadData(buf, off, width);
      Got(OptScalar(if n == 0 then None else Some(n - 1)), o)
  }

  lemma RefsRoundTrip(buf: seq<Byte>, off: nat, rs: seq<Option<Ref>>, w: Numbering, t: Tables)
    requires Agree(w, t) && |rs| < Width(2) && At(buf, off, EmitList(2, rs, RefWriter(w)))
    requires forall i :: 0 <= i < |rs| ==> KnownRef(rs[i], w) && FitsRef(rs[i], w, |t.defs|)
    ensures ReadList(buf, off, 2, RefReader(t)) == Got(rs, off + |EmitList(2, rs, RefWriter(w))|)
  {
    hide Agree, ReadList, EmitList, ReadRef, KnownRef, FitsRef;
    forall i | 0 <= i < |rs|
      ensures Inverts(buf, RefReader(t), RefWriter(w), rs[i])
    {
      forall o: nat | At(buf, o, RefWriter(w)(rs[i]))
        ensures RefReader(t)(buf, o) == Got(rs[i], o + |RefWriter(w)(rs[i])|)
      {
        RefRoundTrip(buf, o, rs[i], w, t);
      }
    }
    ListRoundTrip(buf, off, 2, rs, RefReader(t), RefWriter(w));
  }

  lemma SymbolsRoundTrip(buf: seq<Byte>, off: nat, xs: seq<Name>, w: Numbering, t: Tables)
    requires Agree(w, t) && |xs| < Width(2) && At(buf, off, EmitList(2, xs, SymbolWriter(w)))
    requires forall i :: 0 <= i < |xs| ==> xs[i] in w.symbols && FitsSymbol(xs[i], w)
    ensures ReadList(buf, off, 2, SymbolReader(t)) == Got(xs, off + |EmitList(2, xs, SymbolWriter(w))|)
  {
    hide Agree, ReadList, EmitList, ReadSymbol, FitsSymbol;
    forall i | 0 <= i < |xs|
      ensures Inverts(buf, SymbolReader(t), SymbolWriter(w), xs[i])
    {
      forall o: nat | At(buf, o, SymbolWriter(w)(xs[i]))
        ensures SymbolReader(t)(buf, o) == Got(xs[i], o + |SymbolWriter(w)(xs[i])|)
      {
        SymbolExact(buf, o, xs[i], w, t);
      }
    }
    ListRoundTrip(buf, off, 2, xs, SymbolReader(t), SymbolWriter(w));
  }

  lemma FlagsRoundTrip(buf: seq<Byte>, off: nat, fs: seq<TypeFlag>)
    requires |fs| < Width(2) && At(buf, off, EmitList(2, fs, WriteFlag))
    requires forall i :: 0 <= i < |fs| ==> FitsFlag(fs[i])
    ensures ReadList(buf, off, 2, ReadFlag) == Got(fs, off + |EmitList(2, fs, WriteFlag)|)
  {
    hide ReadList, EmitList, ReadFlag, FitsFlag;
    forall i | 0 <= i < |fs|
      ensures Inverts(buf, ReadFlag, WriteFlag, fs[i])
    {
      forall o: nat | At(buf, o, WriteFlag(fs[i]))
        ensures ReadFlag(buf, o) == Got(fs[i], o + |WriteFlag(fs[i])|)
      {
        FlagRoundTrip(buf, o, fs[i]);
      }
    }
    ListRoundTrip(buf, off, 2, fs, ReadFlag, WriteFlag);
  }

  lemma FieldRoundTrip(buf: seq<Byte>, off: nat, f: Field, s: Shape, w: Numbering, t: Tables)
    requires Agree(w, t) && Matches(f, s) && KnownField(f, w) && FitsField(f, s, w, |t.defs|)
    requires At(buf, off, WriteField(f, s, w))
    ensures ReadField(s, buf, off, t) == Got(f, off + |WriteField(f, s, w)|)
  {
    hide Agree, At, ReadList, EmitList, ReadRef, ReadValue, ReadSymbol, WriteValue, FitsRef, FitsValue, KnownValue;
    match f
    case InstField(r) => RefRoundTrip(buf, off, r, w, t);
    case InstList(rs) => RefsRoundTrip(buf, off, rs, w, t);
    case ValueField(v) => ValueRoundTrip(buf, off, v, w, t);
    case BlockField(b) => SymbolExact(buf, off, b, w, t);
    case BlockList(bs) => SymbolsRoundTrip(buf, off, bs, w, t);
    case FlagList(fs) => FlagsRoundTrip(buf, off, fs);
    case Scalar(n) => ReadEmitted(buf, off, s.width, n);
    case OptScalar(o) => ReadEmitted(buf, off, s.width, if o.Some? then o.value + 1 else 0);
  }

  lemma RefsFit(buf: seq<Byte>, off: nat, w: Numbering, t: Tables)
    requires Agree(w, t) && ReadList(buf, off, 2, RefReader(t)).Got?
    ensures FitsField(InstList(ReadList(buf, off, 2, RefReader(t)).value), InstsShape, w, |t.defs|)
  {
    hide Agree, ReadList, ReadRef, FitsRef;
    var P := (r: Option<Ref>) => FitsRef(r, w, |t.defs|);
    forall o: nat | RefReader(t)(buf, o).Got?
      ensures P(RefReader(t)(buf, o).value)
    {
      RefFits(buf, o, w, t);
    }
    ListHolds(buf, off, 2, RefReader(t), P);
  }

  lemma SymbolsFit(buf: seq<Byte>, off: nat, w: Numbering, t: Tables)
    requires Agree(w, t) && ReadList(buf, off, 2, SymbolReader(t)).Got?
    ensures FitsField(BlockList(ReadList(buf, off, 2, SymbolReader(t)).value), BlocksShape, w, |t.defs|)
  {
    var P := (x: Name) => FitsSymbol(x, w);
    ListHolds(buf, off, 2, SymbolReader(t), P);
  }

  lemma FieldFits(s: Shape, buf: seq<Byte>, off: nat, w: Numbering, t: Tables)
    requires Agree(w, t) && ReadField(s, buf, off, t).Got?
    ensures FitsField(ReadField(s, buf, off, t).value, s, w, |t.defs|)
  {
    hide ReadList, ReadValue, FitsRef, FitsValue;
    match s
    case InstShape => RefFits(buf, off, w, t);
    case InstsShape => RefsFit(buf, off, w, t);
    case ValueShape => ValueFits(buf, off, w, t);
    case BlockShape =>
    case BlocksShape => SymbolsFit(buf, off, w, t);
    case FlagsShape => ListHolds(buf, off, 2, ReadFlag, FitsFlag);
    case ScalarShape(_) =>
    case OptScalarShape(_) =>
  }

  // All the fields of an instruction

  predicate MatchAll(fs: seq<Field>, ss: seq<Shape>) {
    |fs| == |ss| && forall i :: 0 <= i < |fs| ==> Matches(fs[i], ss[i])
  }

  predicate FitsFields(fs: seq<Field>, ss: seq<Shape>, w: Numbering, k: nat)
    requires MatchAll(fs, ss)
  {
    forall i :: 0 <= i < |fs| ==> FitsField(fs[i], ss[i], w, k)
  }

  predicate KnownFields(fs: seq<Field>, w: Numbering) {
    forall i :: 0 <= i < |fs| ==> KnownField(fs[i], w)
  }

  function WriteFields(fs: seq<Field>, ss: seq<Shape>, w: Numbering): (out: seq<Byte>)
    requires MatchAll(fs, ss)
  {
    if fs == [] then [] else WriteField(fs[0], ss[0], w) + WriteFields(fs[1..], ss[1..], w)
  }

  function ReadFields(ss: seq<Shape>, buf: seq<Byte>, off: nat, t: Tables): (r: Parsed<seq<Field>>)
    ensures r.Got? ==> MatchAll(r.value, ss)
  {
    if ss == [] then Got([], off) else
    var (f, o) :- ReadField(ss[0], buf, off, t);
    var (fs, o1) :- ReadFields(ss[1..], buf, o, t);
    Got([f] + fs, o1)
  }

  lemma {:induction false} FieldsRoundTrip(buf: seq<Byte>, off: nat, fs: seq<Field>, ss: seq<Shape>, w: Numbering,
                                           t: Tables)
    requires Agree(w, t) && MatchAll(fs, ss) && KnownFields(fs, w) && FitsFields(fs, ss, w, |t.defs|)
    requires At(buf, off, WriteFields(fs, ss, w))
    ensures ReadFields(ss, buf, off, t) == Got(fs, off + |WriteFields(fs, ss, w)|)
    decreases |fs|
  {
    hide Agree, At, KnownField, FitsField, ReadField, WriteField;
    if fs != [] {
      AtSplit(buf, off, WriteField(fs[0], ss[0], w), WriteFields(fs[1..], ss[1..], w));
      FieldRoundTrip(buf, off, fs[0], ss[0], w, t);
      FieldsRoundTrip(buf, off + |WriteField(fs[0], ss[0], w)|, fs[1..], ss[1..], w, t);
      assert fs == [fs[0]] + fs[1..];
    }
  }

  lemma {:induction false} FieldsFit(ss: seq<Shape>, buf: seq<Byte>, off: nat, w: Numbering, t: Tables)
    requires Agree(w, t) && ReadFields(ss, buf, off, t).Got?
    ensures FitsFields(ReadFields(ss, buf, off, t).value, ss, w, |t.defs|)
  {
    hide Agree, FitsField, ReadField;
    if ss != [] {
      FieldFits(ss[0], buf, off, w, t);
      var o := ReadField(ss[0], buf, off, t).next;
      FieldsFit(ss[1..], buf, o, w, t);
      var fs := ReadFields(ss, buf, off, t).value;
      forall i | 0 <= i < |fs|
        ensures FitsField(fs[i], ss[i], w, |t.defs|)
      {
        if i > 0 {
          assert fs[i] == ReadFields(ss[1..], buf, o, t).value[i - 1] && ss[i] == ss[1..][i - 1];
        }
      }
    }
  }

  // The types of an instruction

  /** How a kind of instruction is laid out: a fixed number of types or a list of them, its
      fields, and its number of results, which defaults to one for each type. */
  datatype Layout = Layout(types: Option<nat>, fields: seq<Shape>, rets: Option<nat>)

  /** The code of PHI instructions and the layouts of all other kinds. */
  datatype Isa = Isa(phi: Byte, ops: map<Byte, Layout>)

  function WriteByte(b: Byte): (s: seq<Byte>) {
    Emit(1, b)
  }

  function WriteTypes(ts: seq<Byte>, l: Layout): (s: seq<Byte>) {
    if l.types.None? then EmitList(1, ts, WriteByte) else EmitAll(ts, WriteByte)
  }

  function ReadTypes(buf: seq<Byte>, off: nat, l: Layout): (r: Parsed<seq<Byte>>)
    ensures r.Got? ==> if l.types.None? then |r.value| < Width(1) else |r.value| == l.types.value
  {
    if l.types.None? then ReadList(buf, off, 1, ReadByte) else ReadMany(buf, off, l.types.value, ReadByte)
  }

  lemma TypesRoundTrip(buf: seq<Byte>, off: nat, ts: seq<Byte>, l: Layout)
    requires if l.types.None? then |ts| < Width(1) else |ts| == l.types.value
    requires At(buf, off, WriteTypes(ts, l))
    ensures ReadTypes(buf, off, l) == Got(ts, off + |WriteTypes(ts, l)|)
  {
    hide At, ReadList, EmitList, ReadMany, EmitAll, ReadByte;
    forall i | 0 <= i < |ts|
      ensures Inverts(buf, ReadByte, WriteByte, ts[i])
    {
      forall o: nat | At(buf, o, WriteByte(ts[i]))
        ensures ReadByte(buf, o) == Got(ts[i], o + |WriteByte(ts[i])|)
      {
        ReadEmittedByte(buf, o, ts[i]);
      }
    }
    if l.types.None? {
      ListRoundTrip(buf, off, 1, ts, ReadByte, WriteByte);
    } else {
      ReadManyEmitted(buf, off, ts, ReadByte, WriteByte);
    }
  }
}
