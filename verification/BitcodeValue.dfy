/** The values of the bitcode stream: symbols, instruction results, expressions, constants,
    type flags, annotations and data items (core/bitcode_writer.cpp:184-478,
    core/bitcode_reader.cpp:196-243, 296-480). */
module BitcodeValue {
  import opened Bytes
  import opened Options

  /** A result of an instruction: its block, its position there and the number of the result. */
  datatype Ref = Ref(block: Name, inst: nat, ret: nat)

  /** The numbering of the writer: symbols from 0, instruction results from 1. */
  datatype Numbering = Numbering(symbols: map<Name, nat>, insts: map<Ref, nat>)

  /** The tables of the reader: every symbol, and the results of the instructions read so far. */
  datatype Tables = Tables(globals: seq<Name>, defs: seq<Ref>)

  /** xs[i] has the number base + i, and nothing else has a number. */
  ghost predicate Numbers<T(!new)>(m: map<T, nat>, xs: seq<T>, base: nat) {
    && (forall i: nat :: i < |xs| ==> xs[i] in m && m[xs[i]] == base + i)
    && (forall x :: x in m ==> base <= m[x] < base + |xs| && xs[m[x] - base] == x)
  }

  /** Writer and reader number symbols and results identically. */
  ghost predicate Agree(w: Numbering, t: Tables) {
    && Numbers(w.symbols, t.globals, 0)
    && (forall i: nat :: i < |t.defs| ==> t.defs[i] in w.insts && w.insts[t.defs[i]] == i + 1)
    && (forall x :: x in w.insts ==> 1 <= w.insts[x] && (w.insts[x] <= |t.defs| ==> t.defs[w.insts[x] - 1] == x))
  }

  /** The number of a key; the writer asserts that there is one. */
  function Lookup<T>(m: map<T, nat>, x: T): (n: nat) {
    if x in m then m[x] else 0
  }

  // Symbols

  predicate FitsSymbol(x: Name, w: Numbering) {
    Lookup(w.symbols, x) < Width(4)
  }

  function WriteSymbol(x: Name, w: Numbering): (s: seq<Byte>) {
    Emit(4, Lookup(w.symbols, x))
  }

  function ReadSymbol(buf: seq<Byte>, off: nat, t: Tables): (r: Parsed<Name>) {
    var (i, o) :- ReadData(buf, off, 4);
    if i >= |t.globals| then Fatal else Got(t.globals[i], o)
  }

  /** An optional symbol is numbered from 1; 0 is none. */
  predicate FitsGlobal(x: Option<Name>, w: Numbering) {
    x.Some? ==> Lookup(w.symbols, x.value) + 1 < Width(4)
  }

  predicate KnownGlobal(x: Option<Name>, w: Numbering) {
    x.Some? ==> x.value in w.symbols
  }

  function WriteGlobal(x: Option<Name>, w: Numbering): (s: seq<Byte>) {
    Emit(4, if x.Some? then Lookup(w.symbols, x.value) + 1 else 0)
  }

  function ReadGlobal(buf: seq<Byte>, off: nat, t: Tables): (r: Parsed<Option<Name>>) {
    var (i, o) :- ReadData(buf, off, 4);
    if i == 0 then Got(None, o)
    else if i - 1 >= |t.globals| then Fatal
    else Got(Some(t.globals[i - 1]), o)
  }

  lemma SymbolExact(buf: seq<Byte>, off: nat, x: Name, w: Numbering, t: Tables)
    requires Agree(w, t) && x in w.symbols
    ensures FitsSymbol(x, w) && At(buf, off, WriteSymbol(x, w)) ==> ReadSymbol(buf, off, t) == Got(x, off + 4)
    ensures ReadSymbol(buf, off, t).Got? ==>
              ReadSymbol(buf, off, t).value in w.symbols && FitsSymbol(ReadSymbol(buf, off, t).value, w)
  {
    if FitsSymbol(x, w) && At(buf, off, WriteSymbol(x, w)) {
      ReadEmitted(buf, off, 4, w.symbols[x]);
    }
  }

  lemma GlobalRoundTrip(buf: seq<Byte>, off: nat, x: Option<Name>, w: Numbering, t: Tables)
    requires Agree(w, t) && KnownGlobal(x, w) && FitsGlobal(x, w) && At(buf, off, WriteGlobal(x, w))
    ensures ReadGlobal(buf, off, t) == Got(x, off + 4)
  {
    ReadEmitted(buf, off, 4, if x.Some? then w.symbols[x.value] + 1 else 0);
  }

  lemma GlobalFits(buf: seq<Byte>, off: nat, w: Numbering, t: Tables)
    requires Agree(w, t) && ReadGlobal(buf, off, t).Got?
    ensures FitsGlobal(ReadGlobal(buf, off, t).value, w)
  {
  }

  // Results of instructions

  predicate KnownRef(x: Option<Ref>, w: Numbering) {
    x.Some? ==> x.value in w.insts
  }

  /** A result must have been read before an operand can refer to it. */
  predicate FitsRef(x: Option<Ref>, w: Numbering, k: nat) {
    x.Some? ==> Lookup(w.insts, x.value) <= k && Lookup(w.insts, x.value) < Width(4)
  }

  function WriteRef(x: Option<Ref>, w: Numbering): (s: seq<Byte>) {
    Emit(4, if x.Some? then Lookup(w.insts, x.value) else 0)
  }

  function ReadRef(buf: seq<Byte>, off: nat, t: Tables): (r: Parsed<Option<Ref>>) {
    var (i, o) :- ReadData(buf, off, 4);
    if i == 0 then Got(None, o)
    else if i > |t.defs| then Fatal
    else Got(Some(t.defs[i - 1]), o)
  }

  lemma RefRoundTrip(buf: seq<Byte>, off: nat, x: Option<Ref>, w: Numbering, t: Tables)
    requires Agree(w, t) && KnownRef(x, w) && FitsRef(x, w, |t.defs|) && At(buf, off, WriteRef(x, w))
    ensures ReadRef(buf, off, t) == Got(x, off + 4)
  {
    ReadEmitted(buf, off, 4, if x.Some? then w.insts[x.value] else 0);
  }

  lemma RefFits(buf: seq<Byte>, off: nat, w: Numbering, t: Tables)
    requires Agree(w, t) && ReadRef(buf, off, t).Got?
    ensures FitsRef(ReadRef(buf, off, t).value, w, |t.defs|)
  {
  }

  // Expressions, constants and operands

  datatype Expr = SymbolOffset(symbol: Option<Name>, offset: int)

  predicate KnownExpr(e: Expr, w: Numbering) {
    KnownGlobal(e.symbol, w)
  }

  predicate FitsExpr(e: Expr, w: Numbering) {
    FitsGlobal(e.symbol, w) && InRange(8, e.offset)
  }

  function WriteExpr(e: Expr, w: Numbering): (s: seq<Byte>) {
    Emit(1, 0) + WriteGlobal(e.symbol, w) + EmitInt(8, e.offset)
  }

  function ReadExpr(buf: seq<Byte>, off: nat, t: Tables): (r: Parsed<Expr>) {
    var (kind, o) :- ReadData(buf, off, 1);
    if kind != 0 then Fatal else
    var (symbol, o1) :- ReadGlobal(buf, o, t);
    var (offset, o2) :- ReadInt(buf, o1, 8);
    Got(SymbolOffset(symbol, offset), o2)
  }

  lemma ExprRoundTrip(buf: seq<Byte>, off: nat, e: Expr, w: Numbering, t: Tables)
    requires Agree(w, t) && KnownExpr(e, w) && FitsExpr(e, w) && At(buf, off, WriteExpr(e, w))
    ensures ReadExpr(buf, off, t) == Got(e, off + |WriteExpr(e, w)|)
  {
    AtSplits(buf);
    ReadEmitted(buf, off, 1, 0);
    GlobalRoundTrip(buf, off + 1, e.symbol, w, t);
    ReadEmittedInt(buf, off + 5, 8, e.offset);
  }

  lemma ExprFits(buf: seq<Byte>, off: nat, w: Numbering, t: Tables)
    requires Agree(w, t) && ReadExpr(buf, off, t).Got?
    ensures FitsExpr(ReadExpr(buf, off, t).value, w)
  {
    GlobalFits(buf, off + 1, w, t);
  }

  /** A constant: a 64-bit integer, or the bit pattern of a double. */
  datatype Const = IntConst(v: int) | FloatConst(bits: nat)

  predicate FitsConst(c: Const) {
    if c.IntConst? then InRange(8, c.v) else c.bits < Width(8)
  }

  function WriteConst(c: Const): (s: seq<Byte>) {
    match c
    case IntConst(v) => Emit(1, 0) + EmitInt(8, v)
    case FloatConst(bits) => Emit(1, 1) + Emit(8, bits)
  }

  function ReadConst(buf: seq<Byte>, off: nat): (r: Parsed<Const>)
    ensures r.Got? ==> FitsConst(r.value)
  {
    var (kind, o) :- ReadData(buf, off, 1);
    if kind == 0 then
      var (v, o1) :- ReadInt(buf, o, 8);
      Got(IntConst(v), o1)
    else if kind == 1 then
      var (bits, o1) :- ReadData(buf, o, 8);
      Got(FloatConst(bits), o1)
    else
      Fatal
  }

  lemma ConstRoundTrip(buf: seq<Byte>, off: nat, c: Const)
    requires FitsConst(c) && At(buf, off, WriteConst(c))
    ensures ReadConst(buf, off) == Got(c, off + |WriteConst(c)|)
  {
    AtSplits(buf);
    match c
    case IntConst(v) =>
      ReadEmitted(buf, off, 1, 0);
      ReadEmittedInt(buf, off + 1, 8, v);
    case FloatConst(bits) =>
      ReadEmitted(buf, off, 1, 1);
      ReadEmitted(buf, off + 1, 8, bits);
  }

  /** An operand of any kind; a null instruction can be read but is never written. */
  datatype Value = InstVal(r: Option<Ref>) | GlobalVal(x: Name) | ExprVal(e: Expr) | ConstVal(c: Const)

  predicate KnownValue(v: Value, w: Numbering) {
    match v
    case InstVal(r) => r.Some? && KnownRef(r, w)
    case GlobalVal(x) => x in w.symbols
    case ExprVal(e) => KnownExpr(e, w)
    case ConstVal(_) => true
  }

  predicate FitsValue(v: Value, w: Numbering, k: nat) {
    match v
    case InstVal(r) => FitsRef(r, w, k)
    case GlobalVal(x) => FitsSymbol(x, w)
    case ExprVal(e) => FitsExpr(e, w)
    case ConstVal(c) => FitsConst(c)
  }

  function WriteValue(v: Value, w: Numbering): (s: seq<Byte>) {
    match v
    case InstVal(r) => Emit(1, 0) + WriteRef(r, w)
    case GlobalVal(x) => Emit(1, 1) + WriteSymbol(x, w)
    case ExprVal(e) => Emit(1, 2) + WriteExpr(e, w)
    case ConstVal(c) => Emit(1, 3) + WriteConst(c)
  }

  function ReadValue(buf: seq<Byte>, off: nat, t: Tables): (r: Parsed<Value>) {
    var (kind, o) :- ReadData(buf, off, 1);
    if kind == 0 then
      var (r, o1) :- ReadRef(buf, o, t);
      Got(InstVal(r), o1)
    else if kind == 1 then
      var (x, o1) :- ReadSymbol(buf, o, t);
      Got(GlobalVal(x), o1)
    else if kind == 2 then
      var (e, o1) :- ReadExpr(buf, o, t);
      Got(ExprVal(e), o1)
    else if kind == 3 then
      var (c, o1) :- ReadConst(buf, o);
      Got(ConstVal(c), o1)
    else
      Fatal
  }

  lemma ValueRoundTrip(buf: seq<Byte>, off: nat, v: Value, w: Numbering, t: Tables)
    requires Agree(w, t) && KnownValue(v, w) && FitsValue(v, w, |t.defs|) && At(buf, off, WriteValue(v, w))
    ensures ReadValue(buf, off, t) == Got(v, off + |WriteValue(v, w)|)
  {
    hide At, Agree, ReadExpr, ReadConst, ReadRef, ReadSymbol, WriteRef, WriteSymbol, WriteExpr, WriteConst, Emit,
      ReadData,
         FitsRef, FitsSymbol, FitsExpr, FitsConst, KnownExpr, KnownRef;
    match v
    case InstVal(r) =>
      AtSplit(buf, off, Emit(1, 0), WriteRef(r, w));
      ReadEmitted(buf, off, 1, 0);
      RefRoundTrip(buf, off + 1, r, w, t);
      RefSize(r, w);
    case GlobalVal(x) =>
      AtSplit(buf, off, Emit(1, 1), WriteSymbol(x, w));
      ByteWidth();
      ReadEmitted(buf, off, 1, 1);
      SymbolExact(buf, off + 1, x, w, t);
      SymbolSize(x, w);
    case ExprVal(e) =>
      AtSplit(buf, off, Emit(1, 2), WriteExpr(e, w));
      ReadEmitted(buf, off, 1, 2);
      ExprRoundTrip(buf, off + 1, e, w, t);
    case ConstVal(c) =>
      AtSplit(buf, off, Emit(1, 3), WriteConst(c));
      ReadEmitted(buf, off, 1, 3);
      ConstRoundTrip(buf, off + 1, c);
  }

  lemma RefSize(r: Option<Ref>, w: Numbering)
    ensures |WriteRef(r, w)| == 4
  {
  }

  lemma SymbolSize(x: Name, w: Numbering)
    ensures |WriteSymbol(x, w)| == 4
  {
  }

  lemma ValueFits(buf: seq<Byte>, off: nat, w: Numbering, t: Tables)
    requires Agree(w, t) && ReadValue(buf, off, t).Got?
    ensures FitsValue(ReadValue(buf, off, t).value, w, |t.defs|)
  {
    match ReadValue(buf, off, t).value
    case InstVal(_) => RefFits(buf, off + 1, w, t);
    case GlobalVal(_) =>
    case ExprVal(_) => ExprFits(buf, off + 1, w, t);
    case ConstVal(_) =>
  }

  // Flags of types

  datatype TypeFlag = NoFlag | ByVal(size: nat, align: nat) | SExt | ZExt

  predicate FitsFlag(f: TypeFlag) {
    f.ByVal? ==> f.size < Width(2) && f.align < Width(2)
  }

  function WriteFlag(f: TypeFlag): (s: seq<Byte>) {
    match f
    case NoFlag => Emit(1, 0)
    case ByVal(size, align) => Emit(1, 1) + Emit(2, size) + Emit(2, align)
    case SExt => Emit(1, 2)
    case ZExt => Emit(1, 3)
  }

  function ReadFlag(buf: seq<Byte>, off: nat): (r: Parsed<TypeFlag>)
    ensures r.Got? ==> FitsFlag(r.value)
  {
    var (kind, o) :- ReadData(buf, off, 1);
    if kind == 0 then Got(NoFlag, o)
    else if kind == 1 then
      var (size, o1) :- ReadData(buf, o, 2);
      var (align, o2) :- ReadData(buf, o1, 2);
      Got(ByVal(size, align), o2)
    else if kind == 2 then Got(SExt, o)
    else if kind == 3 then Got(ZExt, o)
    else Fatal
  }

  lemma FlagRoundTrip(buf: seq<Byte>, off: nat, f: TypeFlag)
    requires FitsFlag(f) && At(buf, off, WriteFlag(f))
    ensures ReadFlag(buf, off) == Got(f, off + |WriteFlag(f)|)
  {
    AtSplits(buf);
    match f
    case NoFlag => ReadEmitted(buf, off, 1, 0);
    case ByVal(size, align) =>
      ReadEmitted(buf, off, 1, 1);
      ReadEmitted(buf, off + 1, 2, size);
      ReadEmitted(buf, off + 3, 2, align);
    case SExt => ReadEmitted(buf, off, 1, 2);
    case ZExt => ReadEmitted(buf, off, 1, 3);
  }

  datatype FlaggedType = FlaggedType(ty: Byte, flag: TypeFlag)

  function WriteFlaggedType(f: FlaggedType): (s: seq<Byte>) {
    Emit(1, f.ty) + WriteFlag(f.flag)
  }

  function ReadFlaggedType(buf: seq<Byte>, off: nat): (r: Parsed<FlaggedType>)
    ensures r.Got? ==> FitsFlag(r.value.flag)
  {
    var (ty, o) :- ReadByte(buf, off);
    var (flag, o1) :- ReadFlag(buf, o);
    Got(FlaggedType(ty, flag), o1)
  }

  lemma FlaggedTypeRoundTrip(buf: seq<Byte>, off: nat, f: FlaggedType)
    requires FitsFlag(f.flag) && At(buf, off, WriteFlaggedType(f))
    ensures ReadFlaggedType(buf, off) == Got(f, off + |WriteFlaggedType(f)|)
  {
    hide At, Emit, ReadByte, WriteFlag, ReadFlag, FitsFlag;
    AtSplit(buf, off, Emit(1, f.ty), WriteFlag(f.flag));
    ReadEmittedByte(buf, off, f.ty);
    FlagRoundTrip(buf, off + 1, f.flag);
  }

  lemma FlaggedTypeInverts(buf: seq<Byte>, f: FlaggedType)
    requires FitsFlag(f.flag)
    ensures Inverts(buf, ReadFlaggedType, WriteFlaggedType, f)
  {
    hide At, ReadFlaggedType, WriteFlaggedType, FitsFlag;
    forall off: nat | At(buf, off, WriteFlaggedType(f))
      ensures ReadFlaggedType(buf, off) == Got(f, off + |WriteFlaggedType(f)|)
    {
      FlaggedTypeRoundTrip(buf, off, f);
    }
  }
}
