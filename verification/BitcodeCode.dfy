/** Function bodies in the bitcode stream: instructions are numbered in the order they are
    written, and PHI operands that are not there yet wait until the whole body has been read
    (core/bitcode_writer.cpp:162-180, 254-285, core/bitcode_reader.cpp:173-192, 258-293). */
module BitcodeCode {
  import opened Bytes
  import opened BitcodeAnnot
  import opened BitcodeInst
  import opened BitcodeValue
  import opened Options

  datatype Inst =
    | Phi(annots: seq<Annot>, ty: Byte, incoming: seq<(Name, Ref)>)
    | Op(annots: seq<Annot>, kind: Byte, types: seq<Byte>, fields: seq<Field>)

  datatype Block = Block(name: Name, vis: Byte, insts: seq<Inst>)

  /** What the classes of the IR guarantee. */
  ghost predicate Formed(i: Inst, isa: Isa) {
    && OneOfEach(i.annots)
    && match i
       case Phi(_, _, incoming) => forall a, b :: 0 <= a < b < |incoming| ==> incoming[a].0 != incoming[b].0
       case Op(_, kind, types, fields) => OpFormed(kind, types, fields, isa)
  }

  predicate OpFormed(kind: Byte, types: seq<Byte>, fields: seq<Field>, isa: Isa) {
    && kind != isa.phi && kind in isa.ops
    && MatchAll(fields, isa.ops[kind].fields)
    && (isa.ops[kind].types.Some? ==> |types| == isa.ops[kind].types.value)
  }

  function Rets(i: Inst, isa: Isa): (n: nat) {
    if i.Phi? then 1
    else if i.kind in isa.ops && isa.ops[i.kind].rets.Some? then isa.ops[i.kind].rets.value
    else |i.types|
  }

  predicate KnownInst(i: Inst, w: Numbering) {
    match i
    case Phi(_, _, incoming) => forall j :: 0 <= j < |incoming| ==>
      incoming[j].0 in w.symbols && incoming[j].1 in w.insts
    case Op(_, _, _, fields) => KnownFields(fields, w)
  }

  predicate FitsPair(p: (Name, Ref), w: Numbering) {
    FitsSymbol(p.0, w) && Lookup(w.insts, p.1) < Width(4)
  }

  predicate FitsInst(i: Inst, isa: Isa, w: Numbering, k: nat) {
    && FitsAnnots(i.annots)
    && match i
       case Phi(_, _, incoming) => |incoming| < Width(2) && forall j :: 0 <= j < |incoming| ==> FitsPair(incoming[j], w)
       case Op(_, kind, types, fields) => OpFormed(kind, types, fields, isa) && FitsOp(kind, types, fields, isa, w, k)
  }

  predicate FitsOp(kind: Byte, types: seq<Byte>, fields: seq<Field>, isa: Isa, w: Numbering, k: nat)
    requires OpFormed(kind, types, fields, isa)
  {
    && (isa.ops[kind].types.None? ==> |types| < Width(1))
    && FitsFields(fields, isa.ops[kind].fields, w, k)
  }

  // Incoming values

  /** Adding a value for a block that has one replaces it. */
  function Add(incoming: seq<(Name, Ref)>, b: Name, r: Ref): (res: seq<(Name, Ref)>)
    ensures |res| <= |incoming| + 1
    ensures forall p :: p in res ==> p in incoming || p == (b, r)
  {
    if incoming == [] then [(b, r)]
    else if incoming[0].0 == b then [(b, r)] + incoming[1..]
    else [incoming[0]] + Add(incoming[1..], b, r)
  }

  lemma {:induction false} AddNew(incoming: seq<(Name, Ref)>, b: Name, r: Ref)
    requires forall j :: 0 <= j < |incoming| ==> incoming[j].0 != b
    ensures Add(incoming, b, r) == incoming + [(b, r)]
  {
    if incoming != [] {
      AddNew(incoming[1..], b, r);
    }
  }

  /** The first value for the block is replaced in its place. */
  lemma {:induction false} AddReplaces(incoming: seq<(Name, Ref)>, b: Name, r: Ref, j: nat)
    requires j < |incoming| && incoming[j].0 == b && forall i :: 0 <= i < j ==> incoming[i].0 != b
    ensures Add(incoming, b, r) == incoming[j := (b, r)]
  {
    if j > 0 {
      AddReplaces(incoming[1..], b, r, j - 1);
    }
  }

  /** A PHI as it is first read: the values that are there, and the numbers (from 0) of those
      that are not. */
  datatype Draft = Draft(inst: Inst, waiting: seq<(Name, nat)>)

  function Arrived(raw: seq<(Name, nat)>, defs: seq<Ref>): (r: seq<(Name, Ref)>)
    requires forall j :: 0 <= j < |raw| ==> raw[j].1 > 0
  {
    if raw == [] then [] else
    var (b, i) := raw[|raw| - 1];
    var before := Arrived(raw[..|raw| - 1], defs);
    if i > |defs| then before else Add(before, b, defs[i - 1])
  }

  function Waiting(raw: seq<(Name, nat)>, n: nat): (r: seq<(Name, nat)>)
    requires forall j :: 0 <= j < |raw| ==> raw[j].1 > 0
  {
    if raw == [] then [] else
    var (b, i) := raw[|raw| - 1];
    Waiting(raw[..|raw| - 1], n) + (if i > n then [(b, i - 1)] else [])
  }

  /** The values that had to wait are added, in order, once every result is known. */
  function AddWaiting(incoming: seq<(Name, Ref)>, waiting: seq<(Name, nat)>, defs: seq<Ref>): (r: seq<(Name, Ref)>)
    requires forall j :: 0 <= j < |waiting| ==> waiting[j].1 < |defs|
    ensures |r| <= |incoming| + |waiting|
  {
    if waiting == [] then incoming else
    var (b, i) := waiting[|waiting| - 1];
    Add(AddWaiting(incoming, waiting[..|waiting| - 1], defs), b, defs[i])
  }

  function Finish(d: Draft, defs: seq<Ref>): (i: Inst)
    requires forall j :: 0 <= j < |d.waiting| ==> d.waiting[j].1 < |defs|
    ensures i.Phi? == d.inst.Phi?
  {
    if d.inst.Phi? then d.inst.(incoming := AddWaiting(d.inst.incoming, d.waiting, defs)) else d.inst
  }

  // One instruction

  function PairWriter(w: Numbering): ((Name, Ref)) -> seq<Byte> {
    (p: (Name, Ref)) => WriteSymbol(p.0, w) + Emit(4, Lookup(w.insts, p.1))
  }

  function ReadPair(buf: seq<Byte>, off: nat, t: Tables): (r: Parsed<(Name, nat)>)
    ensures r.Got? ==> 0 < r.value.1 < Width(4)
  {
    var (b, o) :- ReadSymbol(buf, off, t);
    var (i, o1) :- ReadData(buf, o, 4);
    if i == 0 then Fatal else Got((b, i), o1)
  }

  function PairReader(t: Tables): (seq<Byte>, nat) -> Parsed<(Name, nat)> {
    (buf: seq<Byte>, off: nat) => ReadPair(buf, off, t)
  }

  function Code(i: Inst, isa: Isa): (k: Byte) {
    if i.Phi? then isa.phi else i.kind
  }

  function WriteRest(i: Inst, isa: Isa, w: Numbering): (s: seq<Byte>)
    requires Formed(i, isa)
  {
    match i
    case Phi(_, ty, incoming) => Emit(1, ty) + EmitList(2, incoming, PairWriter(w))
    case Op(_, kind, types, fields) => WriteTypes(types, isa.ops[kind]) + WriteFields(fields, isa.ops[kind].fields, w)
  }

  function WriteInst(i: Inst, isa: Isa, w: Numbering): (s: seq<Byte>)
    requires Formed(i, isa)
  {
    WriteAnnots(i.annots) + Emit(1, Code(i, isa)) + WriteRest(i, isa, w)
  }

  function ReadPairs(buf: seq<Byte>, off: nat, t: Tables): (r: Parsed<seq<(Name, nat)>>)
    ensures r.Got? ==> |r.value| < Width(2) && forall j :: 0 <= j < |r.value| ==> 0 < r.value[j].1 < Width(4)
  {
    var (raw, o) :- ReadList(buf, off, 2, PairReader(t));
    ListHolds(buf, off, 2, PairReader(t), (p: (Name, nat)) => 0 < p.1 < Width(4));
    Got(raw, o)
  }

  function ReadPhi(annots: seq<Annot>, buf: seq<Byte>, off: nat, t: Tables): (r: Parsed<Draft>) {
    var (ty, o) :- ReadByte(buf, off);
    var (raw, o1) :- ReadPairs(buf, o, t);
    Got(Draft(Phi(annots, ty, Arrived(raw, t.defs)), Waiting(raw, |t.defs|)), o1)
  }

  function ReadOp(annots: seq<Annot>, kind: Byte, isa: Isa, buf: seq<Byte>, off: nat, t: Tables): (r: Parsed<Draft>) {
    if kind !in isa.ops then Fatal else
    var (types, o) :- ReadTypes(buf, off, isa.ops[kind]);
    var (fields, o1) :- ReadFields(isa.ops[kind].fields, buf, o, t);
    Got(Draft(Op(annots, kind, types, fields), []), o1)
  }

  function ReadInst(isa: Isa, buf: seq<Byte>, off: nat, t: Tables): (r: Parsed<Draft>) {
    var (annots, o) :- ReadAnnots(buf, off);
    var (kind, o1) :- ReadByte(buf, o);
    if kind == isa.phi then ReadPhi(annots, buf, o1, t) else ReadOp(annots, kind, isa, buf, o1, t)
  }

  // What is read back of a written instruction

  /** The incoming values that are among the first k results, in order. */
  function Early(incoming: seq<(Name, Ref)>, w: Numbering, k: nat): (r: seq<(Name, Ref)>)
    ensures forall p :: p in r ==> p in incoming
  {
    if incoming == [] then [] else
    var p := incoming[|incoming| - 1];
    Early(incoming[..|incoming| - 1], w, k) + (if Lookup(w.insts, p.1) <= k then [p] else [])
  }

  function Late(incoming: seq<(Name, Ref)>, w: Numbering, k: nat): (r: seq<(Name, Ref)>)
    ensures forall p :: p in r ==> p in incoming
  {
    if incoming == [] then [] else
    var p := incoming[|incoming| - 1];
    Late(incoming[..|incoming| - 1], w, k) + (if Lookup(w.insts, p.1) <= k then [] else [p])
  }

  function Raw(incoming: seq<(Name, Ref)>, w: Numbering): (r: seq<(Name, nat)>) {
    seq(|incoming|, (j: nat) requires j < |incoming| => (incoming[j].0, Lookup(w.insts, incoming[j].1)))
  }

  /** Reading an instruction back keeps everything but the order of incoming values: those that
      were already there come first. */
  function Settle(i: Inst, w: Numbering, k: nat): (r: Inst) {
    if i.Phi? then i.(incoming := Early(i.incoming, w, k) + Late(i.incoming, w, k)) else i
  }

  function Numbered(late: seq<(Name, Ref)>, w: Numbering): (r: seq<(Name, nat)>) {
    seq(|late|, (j: nat) requires j < |late| =>
      (late[j].0, if Lookup(w.insts, late[j].1) > 0 then Lookup(w.insts, late[j].1) - 1 else 0))
  }

  function DraftOf(i: Inst, w: Numbering, k: nat): (d: Draft) {
    if i.Phi? then Draft(i.(incoming := Early(i.incoming, w, k)), Numbered(Late(i.incoming, w, k), w)) else Draft(i, [])
  }

  /** Every block keeps its value. */
  lemma {:induction false} SettleKeeps(incoming: seq<(Name, Ref)>, w: Numbering, k: nat)
    ensures multiset(Early(incoming, w, k) + Late(incoming, w, k)) == multiset(incoming)
    ensures |Early(incoming, w, k) + Late(incoming, w, k)| == |incoming|
  {
    hide Lookup;
    if incoming != [] {
      var front, p := incoming[..|incoming| - 1], incoming[|incoming| - 1];
      SettleKeeps(front, w, k);
      OneMoreValue(Early(front, w, k), Late(front, w, k), p);
      assert incoming == front + [p];
    }
  }

  lemma OneMoreValue(early: seq<(Name, Ref)>, late: seq<(Name, Ref)>, p: (Name, Ref))
    ensures multiset((early + [p]) + late) == multiset(early + late) + multiset{p}
    ensures multiset(early + (late + [p])) == multiset(early + late) + multiset{p}
    ensures (early + []) + late == early + (late + []) == early + late
  {
  }

  ghost predicate OneValueEach(incoming: seq<(Name, Ref)>) {
    forall a, b :: 0 <= a < b < |incoming| ==> incoming[a].0 != incoming[b].0
  }

  lemma LastIsNew(incoming: seq<(Name, Ref)>, p: (Name, Ref))
    requires OneValueEach(incoming) && incoming != [] && p in incoming[..|incoming| - 1]
    ensures p.0 != incoming[|incoming| - 1].0
  {
  }

  lemma {:induction false} SettledOnce(incoming: seq<(Name, Ref)>, w: Numbering, k: nat)
    requires OneValueEach(incoming)
    ensures OneValueEach(Early(incoming, w, k) + Late(incoming, w, k))
  {
    if incoming != [] {
      var front := incoming[..|incoming| - 1];
      SettledOnce(front, w, k);
      var early, late := Early(front, w, k), Late(front, w, k);
      forall p: (Name, Ref) | p in early + late
        ensures p.0 != incoming[|incoming| - 1].0
      {
        LastIsNew(incoming, p);
      }
      InsertedOnce(early, incoming[|incoming| - 1], late);
      InsertedOnce(early + late, incoming[|incoming| - 1], []);
      assert early + late + [] == early + late;
      assert (early + late) + [incoming[|incoming| - 1]] + [] == early + (late + [incoming[|incoming| - 1]]);
      if Lookup(w.insts, incoming[|incoming| - 1].1) <= k {
        assert Late(incoming, w, k) == late;
      } else {
        assert Early(incoming, w, k) == early;
      }
    }
  }

  lemma InsertedOnce(x: seq<(Name, Ref)>, p: (Name, Ref), y: seq<(Name, Ref)>)
    requires OneValueEach(x + y)
    requires forall q :: q in x + y ==> q.0 != p.0
    ensures OneValueEach(x + [p] + y)
  {
    var s, r := x + y, x + [p] + y;
    forall a, b | 0 <= a < b < |r|
      ensures r[a].0 != r[b].0
    {
      assert a < |x| ==> r[a] == s[a];
      assert a > |x| ==> r[a] == s[a - 1];
      assert b < |x| ==> r[b] == s[b];
      assert b > |x| ==> r[b] == s[b - 1];
    }
  }

  lemma AgreeOn(w: Numbering, t: Tables, x: Ref)
    requires Agree(w, t) && x in w.insts
    ensures 1 <= w.insts[x] && (w.insts[x] <= |t.defs| ==> t.defs[w.insts[x] - 1] == x)
  {
  }

  /** The values that are there are added at once, the others wait. */
  lemma {:induction false} RawSplits(incoming: seq<(Name, Ref)>, w: Numbering, t: Tables)
    requires Agree(w, t) && OneValueEach(incoming)
    requires forall j :: 0 <= j < |incoming| ==> incoming[j].1 in w.insts
    ensures forall j :: 0 <= j < |incoming| ==> Raw(incoming, w)[j].1 > 0
    ensures Arrived(Raw(incoming, w), t.defs) == Early(incoming, w, |t.defs|)
    ensures Waiting(Raw(incoming, w), |t.defs|) == Numbered(Late(incoming, w, |t.defs|), w)
  {
    if incoming != [] {
      hide Agree;
      var front := incoming[..|incoming| - 1];
      AgreeOn(w, t, incoming[|incoming| - 1].1);
      RawSplits(front, w, t);
      assert Raw(incoming, w)[..|incoming| - 1] == Raw(front, w);
      var early := Early(front, w, |t.defs|);
      forall j | 0 <= j < |early|
        ensures early[j].0 != incoming[|incoming| - 1].0
      {
        LastIsNew(incoming, early[j]);
      }
      var p := incoming[|incoming| - 1];
      if w.insts[p.1] <= |t.defs| {
        AddNew(early, p.0, p.1);
      }
    }
  }

  lemma {:induction false} LateAdded(early: seq<(Name, Ref)>, late: seq<(Name, Ref)>, w: Numbering, all: seq<Ref>)
    requires Numbers(w.insts, all, 1) && OneValueEach(early + late)
    requires forall j :: 0 <= j < |late| ==> late[j].1 in w.insts
    ensures forall j :: 0 <= j < |late| ==> Numbered(late, w)[j].1 < |all|
    ensures AddWaiting(early, Numbered(late, w), all) == early + late
  {
    if late != [] {
      var front, p := late[..|late| - 1], late[|late| - 1];
      assert early + late == (early + front) + [p];
      assert forall a, b :: 0 <= a < b < |early + front| ==>
        (early + front)[a] == (early + late)[a] && (early + front)[b] == (early + late)[b];
      LateAdded(early, front, w, all);
      assert Numbered(late, w)[..|late| - 1] == Numbered(front, w);
      forall j | 0 <= j < |early + front|
        ensures (early + front)[j].0 != p.0
      {
        assert (early + late)[j].0 != (early + late)[|early| + |front|].0;
      }
      AddNew(early + front, p.0, p.1);
    }
  }

  /** Finishing the draft of an instruction gives the instruction. */
  lemma FinishDraft(i: Inst, isa: Isa, w: Numbering, k: nat, all: seq<Ref>)
    requires Formed(i, isa) && KnownInst(i, w) && Numbers(w.insts, all, 1)
    ensures forall j :: 0 <= j < |DraftOf(i, w, k).waiting| ==> DraftOf(i, w, k).waiting[j].1 < |all|
    ensures Finish(DraftOf(i, w, k), all) == Settle(i, w, k)
    ensures Rets(DraftOf(i, w, k).inst, isa) == Rets(i, isa)
  {
    if i.Phi? {
      SettledOnce(i.incoming, w, k);
      forall j | 0 <= j < |Late(i.incoming, w, k)|
        ensures Late(i.incoming, w, k)[j].1 in w.insts
      {
        assert Late(i.incoming, w, k)[j] in i.incoming;
      }
      LateAdded(Early(i.incoming, w, k), Late(i.incoming, w, k), w, all);
    }
  }

  function WriteRaw(p: (Name, nat), w: Numbering): (s: seq<Byte>) {
    WriteSymbol(p.0, w) + Emit(4, p.1)
  }

  lemma {:induction false} SamePairs(incoming: seq<(Name, Ref)>, w: Numbering, write: ((Name, nat)) -> seq<Byte>)
    requires forall p: (Name, nat) :: write(p) == WriteRaw(p, w)
    ensures EmitAll(incoming, PairWriter(w)) == EmitAll(Raw(incoming, w), write)
  {
    if incoming != [] {
      SamePairs(incoming[1..], w, write);
      assert Raw(incoming, w)[1..] == Raw(incoming[1..], w);
      assert Raw(incoming, w)[0] == (incoming[0].0, Lookup(w.insts, incoming[0].1));
    }
  }

  lemma SameBytes(incoming: seq<(Name, Ref)>, w: Numbering, write: ((Name, nat)) -> seq<Byte>)
    requires forall p: (Name, nat) :: write(p) == WriteRaw(p, w)
    ensures EmitList(2, incoming, PairWriter(w)) == EmitList(2, Raw(incoming, w), write)
  {
    SamePairs(incoming, w, write);
  }

  lemma PairsRoundTrip(buf: seq<Byte>, off: nat, incoming: seq<(Name, Ref)>, w: Numbering, t: Tables)
    requires Agree(w, t) && |incoming| < Width(2)
    requires forall j :: 0 <= j < |incoming| ==>
      incoming[j].0 in w.symbols && incoming[j].1 in w.insts && FitsPair(incoming[j], w)
    requires At(buf, off, EmitList(2, incoming, PairWriter(w)))
    ensures ReadPairs(buf, off, t) == Got(Raw(incoming, w), off + |EmitList(2, incoming, PairWriter(w))|)
  {
    hide EmitList, ReadList;
    var raw := Raw(incoming, w);
    var write := (p: (Name, nat)) => WriteRaw(p, w);
    forall j | 0 <= j < |raw|
      ensures Inverts(buf, PairReader(t), write, raw[j])
    {
      forall o: nat | At(buf, o, write(raw[j]))
        ensures PairReader(t)(buf, o) == Got(raw[j], o + |write(raw[j])|)
      {
        AtSplit(buf, o, WriteSymbol(raw[j].0, w), Emit(4, raw[j].1));
        SymbolExact(buf, o, raw[j].0, w, t);
        ReadEmitted(buf, o + 4, 4, raw[j].1);
      }
    }
    SameBytes(incoming, w, write);
    ListRoundTrip(buf, off, 2, raw, PairReader(t), write);
  }

  lemma PhiRoundTrip(buf: seq<Byte>, off: nat, i: Inst, isa: Isa, w: Numbering, t: Tables)
    requires i.Phi? && Agree(w, t) && Formed(i, isa) && KnownInst(i, w) && FitsInst(i, isa, w, |t.defs|)
    requires At(buf, off, Emit(1, i.ty) + EmitList(2, i.incoming, PairWriter(w)))
    ensures ReadPhi(i.annots, buf, off, t) ==
      Got(DraftOf(i, w, |t.defs|), off + 1 + |EmitList(2, i.incoming, PairWriter(w))|)
  {
    hide At, Agree, EmitList, ReadPairs, ReadByte, Arrived, Waiting, Early, Late;
    AtSplit(buf, off, Emit(1, i.ty), EmitList(2, i.incoming, PairWriter(w)));
    ReadEmittedByte(buf, off, i.ty);
    PairsRoundTrip(buf, off + 1, i.incoming, w, t);
    RawSplits(i.incoming, w, t);
  }

  lemma OpRoundTrip(buf: seq<Byte>, off: nat, i: Inst, isa: Isa, w: Numbering, t: Tables)
    requires i.Op? && Agree(w, t) && Formed(i, isa) && KnownInst(i, w) && FitsInst(i, isa, w, |t.defs|)
    requires At(buf, off, WriteTypes(i.types, isa.ops[i.kind]) + WriteFields(i.fields, isa.ops[i.kind].fields, w))
    ensures ReadOp(i.annots, i.kind, isa, buf, off, t) == Got(DraftOf(i, w, |t.defs|),
              off + |WriteTypes(i.types, isa.ops[i.kind])| + |WriteFields(i.fields, isa.ops[i.kind].fields, w)|)
  {
    hide At, Agree, WriteTypes, ReadTypes, WriteFields, ReadFields, KnownFields, FitsFields, MatchAll;
    var types := WriteTypes(i.types, isa.ops[i.kind]);
    AtSplit(buf, off, types, WriteFields(i.fields, isa.ops[i.kind].fields, w));
    TypesRoundTrip(buf, off, i.types, isa.ops[i.kind]);
    FieldsRoundTrip(buf, off + |types|, i.fields, isa.ops[i.kind].fields, w, t);
  }

  /** An instruction that fits is read back as its draft. */
  lemma InstRoundTrip(buf: seq<Byte>, off: nat, i: Inst, isa: Isa, w: Numbering, t: Tables)
    requires Agree(w, t) && Formed(i, isa) && KnownInst(i, w) && FitsInst(i, isa, w, |t.defs|)
    requires At(buf, off, WriteInst(i, isa, w))
    ensures ReadInst(isa, buf, off, t) == Got(DraftOf(i, w, |t.defs|), off + |WriteInst(i, isa, w)|)
  {
    hide At, Agree, KnownInst, ReadAnnots, WriteAnnots, FitsAnnots, ReadPhi, ReadOp, Early, Late, DraftOf, ReadByte,
      Emit;
    AtSplit(buf, off, WriteAnnots(i.annots) + Emit(1, Code(i, isa)), WriteRest(i, isa, w));
    AtSplit(buf, off, WriteAnnots(i.annots), Emit(1, Code(i, isa)));
    AnnotsRoundTrip(buf, off, i.annots);
    var o := off + |WriteAnnots(i.annots)|;
    ReadEmittedByte(buf, o, Code(i, isa));
    if i.Phi? {
      PhiRoundTrip(buf, o + 1, i, isa, w, t);
    } else {
      OpRoundTrip(buf, o + 1, i, isa, w, t);
    }
  }

  // Whatever is read fits

  ghost predicate DraftFits(d: Draft, isa: Isa, w: Numbering, k: nat) {
    && FitsInst(d.inst, isa, w, k)
    && (d.inst.Phi? ==> |d.inst.incoming| + |d.waiting| < Width(2))
    && forall j :: 0 <= j < |d.waiting| ==> FitsSymbol(d.waiting[j].0, w) && d.waiting[j].1 + 1 < Width(4)
  }

  ghost predicate RawFits(raw: seq<(Name, nat)>, w: Numbering) {
    forall j :: 0 <= j < |raw| ==> FitsSymbol(raw[j].0, w) && 0 < raw[j].1 < Width(4)
  }

  lemma {:induction false} ArrivedFits(raw: seq<(Name, nat)>, w: Numbering, t: Tables)
    requires Agree(w, t) && RawFits(raw, w)
    ensures forall p :: p in Arrived(raw, t.defs) ==> FitsPair(p, w)
    ensures forall j :: 0 <= j < |Waiting(raw, |t.defs|)| ==>
              FitsSymbol(Waiting(raw, |t.defs|)[j].0, w) && Waiting(raw, |t.defs|)[j].1 + 1 < Width(4)
    ensures |Arrived(raw, t.defs)| + |Waiting(raw, |t.defs|)| <= |raw|
  {
    if raw != [] {
      var front := raw[..|raw| - 1];
      assert RawFits(front, w);
      ArrivedFits(front, w, t);
    }
  }

  lemma PairsFit(buf: seq<Byte>, off: nat, w: Numbering, t: Tables)
    requires Agree(w, t) && ReadPairs(buf, off, t).Got?
    ensures RawFits(ReadPairs(buf, off, t).value, w)
  {
    var P := (p: (Name, nat)) => FitsSymbol(p.0, w) && 0 < p.1 < Width(4);
    ListHolds(buf, off, 2, PairReader(t), P);
  }

  lemma PhiFits(annots: seq<Annot>, isa: Isa, buf: seq<Byte>, off: nat, w: Numbering, t: Tables)
    requires Agree(w, t) && FitsAnnots(annots) && ReadPhi(annots, buf, off, t).Got?
    ensures DraftFits(ReadPhi(annots, buf, off, t).value, isa, w, |t.defs|)
  {
    hide Agree, ReadPairs, Arrived, Waiting, FitsPair, FitsAnnots, FitsSymbol;
    PairsFit(buf, off + 1, w, t);
    ArrivedFits(ReadPairs(buf, off + 1, t).value, w, t);
  }

  lemma OpFits(annots: seq<Annot>, kind: Byte, isa: Isa, buf: seq<Byte>, off: nat, w: Numbering, t: Tables)
    requires Agree(w, t) && FitsAnnots(annots) && kind != isa.phi && ReadOp(annots, kind, isa, buf, off, t).Got?
    ensures DraftFits(ReadOp(annots, kind, isa, buf, off, t).value, isa, w, |t.defs|)
  {
    hide Agree, ReadTypes, ReadFields, FitsFields, FitsAnnots;
    var types := ReadTypes(buf, off, isa.ops[kind]);
    FieldsFit(isa.ops[kind].fields, buf, types.next, w, t);
  }

  lemma InstFits(isa: Isa, buf: seq<Byte>, off: nat, w: Numbering, t: Tables)
    requires Agree(w, t) && ReadInst(isa, buf, off, t).Got?
    ensures DraftFits(ReadInst(isa, buf, off, t).value, isa, w, |t.defs|)
  {
    hide Agree, ReadAnnots, ReadPhi, ReadOp, FitsAnnots, DraftFits;
    var annots := ReadAnnots(buf, off);
    var kind := ReadByte(buf, annots.next);
    if kind.value == isa.phi {
      PhiFits(annots.value, isa, buf, kind.next, w, t);
    } else {
      OpFits(annots.value, kind.value, isa, buf, kind.next, w, t);
    }
  }

  lemma {:induction false} AddWaitingFits(incoming: seq<(Name, Ref)>, waiting: seq<(Name, nat)>, w: Numbering,
                                          all: seq<Ref>)
    requires Numbers(w.insts, all, 1)
    requires forall p :: p in incoming ==> FitsPair(p, w)
    requires forall j :: 0 <= j < |waiting| ==>
      waiting[j].1 < |all| && FitsSymbol(waiting[j].0, w) && waiting[j].1 + 1 < Width(4)
    ensures forall p :: p in AddWaiting(incoming, waiting, all) ==> FitsPair(p, w)
  {
    if waiting != [] {
      AddWaitingFits(incoming, waiting[..|waiting| - 1], w, all);
    }
  }

  /** A finished instruction fits wherever its draft was read. */
  lemma FinishFits(d: Draft, isa: Isa, w: Numbering, k: nat, all: seq<Ref>)
    requires Numbers(w.insts, all, 1) && DraftFits(d, isa, w, k)
    requires forall j :: 0 <= j < |d.waiting| ==> d.waiting[j].1 < |all|
    ensures FitsInst(Finish(d, all), isa, w, k)
  {
    hide Numbers, FitsPair, FitsSymbol, FitsOp, FitsAnnots;
    if d.inst.Phi? {
      AddWaitingFits(d.inst.incoming, d.waiting, w, all);
    }
  }

  ghost predicate PairsFitAll(incoming: seq<(Name, Ref)>, w: Numbering) {
    forall j :: 0 <= j < |incoming| ==> FitsPair(incoming[j], w)
  }

  lemma SamePairsFit(s: seq<(Name, Ref)>, r: seq<(Name, Ref)>, w: Numbering)
    requires multiset(s) == multiset(r) && PairsFitAll(s, w)
    ensures PairsFitAll(r, w)
  {
    hide FitsPair;
    forall j | 0 <= j < |r|
      ensures FitsPair(r[j], w)
    {
      assert r[j] in multiset(s);
      assert r[j] in s;
    }
  }

  /** Settling does not change whether an instruction fits. */
  lemma SettleFits(i: Inst, isa: Isa, w: Numbering, k: nat)
    ensures FitsInst(Settle(i, w, k), isa, w, k) <==> FitsInst(i, isa, w, k)
  {
    if i.Phi? {
      hide FitsPair, FitsOp, FitsAnnots, Early, Late;
      SettleKeeps(i.incoming, w, k);
      var s := Settle(i, w, k).incoming;
      if PairsFitAll(i.incoming, w) {
        SamePairsFit(i.incoming, s, w);
      }
      if PairsFitAll(s, w) {
        SamePairsFit(s, i.incoming, w);
      }
    }
  }
}
