/** Data, externs, constructors and annotations in the bitcode stream
    (core/bitcode_writer.cpp:89-113, 184-251, 315-370, core/bitcode_reader.cpp:104-129, 196-255,
    387-447). */
module BitcodeData {
  import opened Bytes
  import opened BitcodeValue
  import opened Options

  // Items of atoms

  datatype Item =
    | Int8(v: int) | Int16(v: int) | Int32(v: int) | Int64(v: int) | Float64(bits: nat)
    | Expr32(e: Expr) | Expr64(e: Expr) | Space(n: nat) | Str(s: Name)

  predicate KnownItem(i: Item, w: Numbering) {
    i.Expr32? || i.Expr64? ==> KnownExpr(i.e, w)
  }

  predicate FitsItem(i: Item, w: Numbering) {
    match i
    case Int8(v) => InRange(1, v)
    case Int16(v) => InRange(2, v)
    case Int32(v) => InRange(4, v)
    case Int64(v) => InRange(8, v)
    case Float64(bits) => bits < Width(8)
    case Expr32(e) => FitsExpr(e, w)
    case Expr64(e) => FitsExpr(e, w)
    case Space(n) => n < Width(4)
    case Str(s) => FitsName(s)
  }

  function Code(i: Item): (k: nat)
    ensures k < Width(1)
  {
    match i
    case Int8(_) => 0
    case Int16(_) => 1
    case Int32(_) => 2
    case Int64(_) => 3
    case Float64(_) => 4
    case Expr32(_) => 5
    case Expr64(_) => 6
    case Space(_) => 7
    case Str(_) => 8
  }

  function WritePayload(i: Item, w: Numbering): (s: seq<Byte>) {
    match i
    case Int8(v) => EmitInt(1, v)
    case Int16(v) => EmitInt(2, v)
    case Int32(v) => EmitInt(4, v)
    case Int64(v) => EmitInt(8, v)
    case Float64(bits) => Emit(8, bits)
    case Expr32(e) => WriteExpr(e, w)
    case Expr64(e) => WriteExpr(e, w)
    case Space(n) => Emit(4, n)
    case Str(s) => EmitName(s)
  }

  function WriteItem(i: Item, w: Numbering): (s: seq<Byte>) {
    Emit(1, Code(i)) + WritePayload(i, w)
  }

  function ReadItem(buf: seq<Byte>, off: nat, t: Tables): (r: Parsed<Item>) {
    var (kind, o) :- ReadData(buf, off, 1);
    if kind == 0 then var (v, o1) :- ReadInt(buf, o, 1); Got(Int8(v), o1)
    else if kind == 1 then var (v, o1) :- ReadInt(buf, o, 2); Got(Int16(v), o1)
    else if kind == 2 then var (v, o1) :- ReadInt(buf, o, 4); Got(Int32(v), o1)
    else if kind == 3 then var (v, o1) :- ReadInt(buf, o, 8); Got(Int64(v), o1)
    else if kind == 4 then var (bits, o1) :- ReadData(buf, o, 8); Got(Float64(bits), o1)
    else if kind == 5 then var (e, o1) :- ReadExpr(buf, o, t); Got(Expr32(e), o1)
    else if kind == 6 then var (e, o1) :- ReadExpr(buf, o, t); Got(Expr64(e), o1)
    else if kind == 7 then var (n, o1) :- ReadData(buf, o, 4); Got(Space(n), o1)
    else if kind == 8 then var (s, o1) :- ReadString(buf, o); Got(Str(s), o1)
    else Fatal
  }

  lemma ItemRoundTrip(buf: seq<Byte>, off: nat, i: Item, w: Numbering, t: Tables)
    requires Agree(w, t) && KnownItem(i, w) && FitsItem(i, w) && At(buf, off, WriteItem(i, w))
    ensures ReadItem(buf, off, t) == Got(i, off + |WriteItem(i, w)|)
  {
    hide At, Agree, ReadExpr, WriteExpr, EmitName, ReadString, ReadInt, InRange, FitsExpr, Emit, EmitInt, ReadData,
      KnownExpr;
    AtSplit(buf, off, Emit(1, Code(i)), WritePayload(i, w));
    ReadEmitted(buf, off, 1, Code(i));
    match i
    case Int8(v) => ReadEmittedInt(buf, off + 1, 1, v);
    case Int16(v) => ReadEmittedInt(buf, off + 1, 2, v);
    case Int32(v) => ReadEmittedInt(buf, off + 1, 4, v);
    case Int64(v) => ReadEmittedInt(buf, off + 1, 8, v);
    case Float64(bits) => ReadEmitted(buf, off + 1, 8, bits);
    case Expr32(e) => ExprRoundTrip(buf, off + 1, e, w, t);
    case Expr64(e) => ExprRoundTrip(buf, off + 1, e, w, t);
    case Space(n) => ReadEmitted(buf, off + 1, 4, n);
    case Str(s) => ReadEmittedName(buf, off + 1, s);
  }

  lemma ItemFits(buf: seq<Byte>, off: nat, w: Numbering, t: Tables)
    requires Agree(w, t) && ReadItem(buf, off, t).Got?
    ensures FitsItem(ReadItem(buf, off, t).value, w)
  {
    hide Agree, ReadExpr, FitsExpr, ReadString, ReadInt, InRange;
    if ReadExpr(buf, off + 1, t).Got? {
      ExprFits(buf, off + 1, w, t);
    }
  }

  // Atoms

  /** What the stream holds of an atom beside its name. */
  datatype AtomBody = AtomBody(align: Option<nat>, vis: Byte, items: seq<Item>)

  /** Alignments are written as numbers, 0 for none. */
  predicate FitsAlign(a: Option<nat>) {
    a.Some? ==> 0 < a.value < Width(4)
  }

  function WriteAlign(a: Option<nat>): (s: seq<Byte>) {
    Emit(4, if a.Some? then a.value else 0)
  }

  function ReadAlign(buf: seq<Byte>, off: nat): (r: Parsed<Option<nat>>)
    ensures r.Got? ==> FitsAlign(r.value)
  {
    var (n, o) :- ReadData(buf, off, 4);
    Got(if n == 0 then None else Some(n), o)
  }

  lemma AlignRoundTrip(buf: seq<Byte>, off: nat, a: Option<nat>)
    requires FitsAlign(a) && At(buf, off, WriteAlign(a))
    ensures ReadAlign(buf, off) == Got(a, off + 4)
  {
    ReadEmitted(buf, off, 4, if a.Some? then a.value else 0);
  }

  predicate KnownAtom(a: AtomBody, w: Numbering) {
    forall i :: i in a.items ==> KnownItem(i, w)
  }

  predicate FitsAtom(a: AtomBody, w: Numbering) {
    FitsAlign(a.align) && |a.items| < Width(4) && forall i :: i in a.items ==> FitsItem(i, w)
  }

  function ItemWriter(w: Numbering): Item -> seq<Byte> {
    (i: Item) => WriteItem(i, w)
  }

  function ItemReader(t: Tables): (seq<Byte>, nat) -> Parsed<Item> {
    (buf: seq<Byte>, off: nat) => ReadItem(buf, off, t)
  }

  function WriteAtom(a: AtomBody, w: Numbering): (s: seq<Byte>) {
    WriteAlign(a.align) + Emit(1, a.vis) + EmitList(4, a.items, ItemWriter(w))
  }

  function ReadAtom(buf: seq<Byte>, off: nat, t: Tables): (r: Parsed<AtomBody>) {
    var (align, o) :- ReadAlign(buf, off);
    var (vis, o1) :- ReadByte(buf, o);
    var (items, o2) :- ReadList(buf, o1, 4, ItemReader(t));
    Got(AtomBody(align, vis, items), o2)
  }

  lemma AtomRoundTrip(buf: seq<Byte>, off: nat, a: AtomBody, w: Numbering, t: Tables)
    requires Agree(w, t) && KnownAtom(a, w) && FitsAtom(a, w) && At(buf, off, WriteAtom(a, w))
    ensures ReadAtom(buf, off, t) == Got(a, off + |WriteAtom(a, w)|)
  {
    hide Agree, ReadItem, WriteItem, KnownItem, FitsItem;
    AtSplits(buf);
    AlignRoundTrip(buf, off, a.align);
    ReadEmittedByte(buf, off + 4, a.vis);
    forall i | 0 <= i < |a.items|
      ensures Inverts(buf, ItemReader(t), ItemWriter(w), a.items[i])
    {
      forall o: nat | At(buf, o, ItemWriter(w)(a.items[i]))
        ensures ItemReader(t)(buf, o) == Got(a.items[i], o + |ItemWriter(w)(a.items[i])|)
      {
        ItemRoundTrip(buf, o, a.items[i], w, t);
      }
    }
    ListRoundTrip(buf, off + 5, 4, a.items, ItemReader(t), ItemWriter(w));
  }

  lemma AtomFits(buf: seq<Byte>, off: nat, w: Numbering, t: Tables)
    requires Agree(w, t) && ReadAtom(buf, off, t).Got?
    ensures FitsAtom(ReadAtom(buf, off, t).value, w)
  {
    hide Agree, ReadItem, FitsItem;
    forall o: nat | ItemReader(t)(buf, o).Got?
      ensures ((i: Item) => FitsItem(i, w))(ItemReader(t)(buf, o).value)
    {
      ItemFits(buf, o, w, t);
    }
    var P := (i: Item) => FitsItem(i, w);
    assert forall o: nat :: ItemReader(t)(buf, o).Got? ==> P(ItemReader(t)(buf, o).value);
    ListHolds(buf, off + 5, 4, ItemReader(t), P);
  }

  // Externs

  datatype ExternBody = ExternBody(vis: Byte, value: Option<Value>, section: Option<Name>)

  /** The value of an extern is written without a numbering of instructions. */
  predicate KnownExtern(x: ExternBody, w: Numbering) {
    x.value.Some? ==> !x.value.value.InstVal? && KnownValue(x.value.value, w)
  }

  predicate FitsExtern(x: ExternBody, w: Numbering) {
    && (x.value.Some? ==> FitsValue(x.value.value, w, 0))
    && (x.section.Some? ==> FitsName(x.section.value))
  }

  function WriteOptValue(v: Option<Value>, w: Numbering): (s: seq<Byte>) {
    EmitBool(v.Some?) + (if v.Some? then WriteValue(v.value, w) else [])
  }

  function WriteOptName(x: Option<Name>): (s: seq<Byte>) {
    EmitBool(x.Some?) + (if x.Some? then EmitName(x.value) else [])
  }

  function WriteExtern(x: ExternBody, w: Numbering): (s: seq<Byte>) {
    Emit(1, x.vis) + WriteOptValue(x.value, w) + WriteOptName(x.section)
  }

  function ReadOptValue(buf: seq<Byte>, off: nat, t: Tables): (r: Parsed<Option<Value>>) {
    var (has, o) :- ReadBool(buf, off);
    if !has then Got(None, o) else
    var (v, o1) :- ReadValue(buf, o, t);
    Got(Some(v), o1)
  }

  function ReadOptName(buf: seq<Byte>, off: nat): (r: Parsed<Option<Name>>)
    ensures r.Got? && r.value.Some? ==> FitsName(r.value.value)
  {
    var (has, o) :- ReadBool(buf, off);
    if !has then Got(None, o) else
    var (s, o1) :- ReadString(buf, o);
    Got(Some(s), o1)
  }

  function ReadExtern(buf: seq<Byte>, off: nat, t: Tables): (r: Parsed<ExternBody>) {
    var (vis, o) :- ReadByte(buf, off);
    var (value, o1) :- ReadOptValue(buf, o, t);
    var (section, o2) :- ReadOptName(buf, o1);
    Got(ExternBody(vis, value, section), o2)
  }

  lemma OptValueRoundTrip(buf: seq<Byte>, off: nat, v: Option<Value>, w: Numbering, t: Tables)
    requires Agree(w, t) && (v.Some? ==> KnownValue(v.value, w) && FitsValue(v.value, w, |t.defs|))
    requires At(buf, off, WriteOptValue(v, w))
    ensures ReadOptValue(buf, off, t) == Got(v, off + |WriteOptValue(v, w)|)
  {
    hide At, Agree, WriteValue, ReadValue, KnownValue, FitsValue, ReadBool;
    AtSplit(buf, off, EmitBool(v.Some?), if v.Some? then WriteValue(v.value, w) else []);
    ReadEmittedBool(buf, off, v.Some?);
    if v.Some? {
      ValueRoundTrip(buf, off + 1, v.value, w, t);
    }
  }

  lemma OptNameRoundTrip(buf: seq<Byte>, off: nat, x: Option<Name>)
    requires (x.Some? ==> FitsName(x.value)) && At(buf, off, WriteOptName(x))
    ensures ReadOptName(buf, off) == Got(x, off + |WriteOptName(x)|)
  {
    hide At, EmitName, ReadString, FitsName, ReadBool;
    AtSplit(buf, off, EmitBool(x.Some?), if x.Some? then EmitName(x.value) else []);
    ReadEmittedBool(buf, off, x.Some?);
    if x.Some? {
      ReadEmittedName(buf, off + 1, x.value);
    }
  }

  lemma ExternRoundTrip(buf: seq<Byte>, off: nat, x: ExternBody, w: Numbering, t: Tables)
    requires Agree(w, t) && t.defs == [] && KnownExtern(x, w) && FitsExtern(x, w)
    requires At(buf, off, WriteExtern(x, w))
    ensures ReadExtern(buf, off, t) == Got(x, off + |WriteExtern(x, w)|)
  {
    hide At, Agree, WriteOptValue, ReadOptValue, WriteOptName, ReadOptName, KnownValue, FitsValue, FitsName, ReadByte,
      Emit;
    AtSplit(buf, off, Emit(1, x.vis) + WriteOptValue(x.value, w), WriteOptName(x.section));
    AtSplit(buf, off, Emit(1, x.vis), WriteOptValue(x.value, w));
    ReadEmittedByte(buf, off, x.vis);
    OptValueRoundTrip(buf, off + 1, x.value, w, t);
    OptNameRoundTrip(buf, off + 1 + |WriteOptValue(x.value, w)|, x.section);
  }

  lemma ExternFits(buf: seq<Byte>, off: nat, w: Numbering, t: Tables)
    requires Agree(w, t) && t.defs == [] && ReadExtern(buf, off, t).Got?
    ensures FitsExtern(ReadExtern(buf, off, t).value, w)
  {
    hide Agree, ReadValue, FitsValue;
    if ReadValue(buf, off + 2, t).Got? {
      ValueFits(buf, off + 2, w, t);
    }
  }

  // Constructors and destructors

  datatype Xtor = Xtor(kind: Byte, priority: int, func: Name)

  predicate FitsXtor(x: Xtor, w: Numbering) {
    InRange(4, x.priority) && FitsSymbol(x.func, w)
  }

  function WriteXtor(x: Xtor, w: Numbering): (s: seq<Byte>) {
    Emit(1, x.kind) + EmitInt(4, x.priority) + WriteSymbol(x.func, w)
  }

  function ReadXtor(buf: seq<Byte>, off: nat, t: Tables): (r: Parsed<Xtor>) {
    var (kind, o) :- ReadByte(buf, off);
    var (priority, o1) :- ReadInt(buf, o, 4);
    var (func, o2) :- ReadSymbol(buf, o1, t);
    Got(Xtor(kind, priority, func), o2)
  }

  lemma XtorRoundTrip(buf: seq<Byte>, off: nat, x: Xtor, w: Numbering, t: Tables)
    requires Agree(w, t) && x.func in w.symbols && FitsXtor(x, w) && At(buf, off, WriteXtor(x, w))
    ensures ReadXtor(buf, off, t) == Got(x, off + |WriteXtor(x, w)|)
  {
    AtSplits(buf);
    ReadEmittedByte(buf, off, x.kind);
    ReadEmittedInt(buf, off + 1, 4, x.priority);
    SymbolExact(buf, off + 5, x.func, w, t);
  }

  lemma XtorFits(buf: seq<Byte>, off: nat, w: Numbering, t: Tables)
    requires Agree(w, t) && ReadXtor(buf, off, t).Got?
    ensures FitsXtor(ReadXtor(buf, off, t).value, w)
  {
  }
}
