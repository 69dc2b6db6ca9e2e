/** Functions in the bitcode stream: attributes, stack objects, parameters and the body
    (core/bitcode_writer.cpp:117-181, core/bitcode_reader.cpp:133-193, core/func.cpp:191-199). */
module BitcodeFunc {
  import opened Bytes
  import opened BitcodeBody
  import opened BitcodeBodyTrip
  import opened BitcodeCode
  import opened BitcodeData
  import opened BitcodeInst
  import opened BitcodeValue
  import opened Options

  /** An object on the stack; its alignment is written with one byte. */
  datatype StackObject = StackObject(index: nat, size: nat, align: nat)

  predicate FitsStack(o: StackObject) {
    o.index < Width(2) && o.size < Width(4) && o.align < Width(1)
  }

  function WriteStack(o: StackObject): (s: seq<Byte>) {
    Emit(2, o.index) + Emit(4, o.size) + Emit(1, o.align)
  }

  function ReadStack(buf: seq<Byte>, off: nat): (r: Parsed<StackObject>)
    ensures r.Got? ==> FitsStack(r.value)
  {
    var (index, o) :- ReadData(buf, off, 2);
    var (size, o1) :- ReadData(buf, o, 4);
    var (align, o2) :- ReadData(buf, o1, 1);
    Got(StackObject(index, size, align), o2)
  }

  /** A stack object is read back exactly when it fits; an alignment of 256 or more is lost. */
  lemma StackExact(buf: seq<Byte>, off: nat, o: StackObject)
    requires At(buf, off, WriteStack(o))
    ensures ReadStack(buf, off) == Got(o, off + |WriteStack(o)|) <==> FitsStack(o)
  {
    hide Emit, ReadData, At;
    if FitsStack(o) {
      AtSplits(buf);
      ReadEmitted(buf, off, 2, o.index);
      ReadEmitted(buf, off + 2, 4, o.size);
      ReadEmitted(buf, off + 6, 1, o.align);
    }
  }

  /** An object aligned to 256 bytes comes back with alignment 0. */
  lemma WideAlignmentLost(index: nat, size: nat)
    requires index < Width(2) && size < Width(4)
    ensures ReadStack(WriteStack(StackObject(index, size, 256)), 0) == Got(StackObject(index, size, 0), 7)
  {
    var o := StackObject(index, size, 256);
    var buf := WriteStack(o);
    assert Emit(1, 256) == Emit(1, 0);
    assert buf == WriteStack(StackObject(index, size, 0));
    assert At(buf, 0, WriteStack(StackObject(index, size, 0)));
    StackExact(buf, 0, StackObject(index, size, 0));
  }

  /** Adding two objects with one index is a fatal error. */
  predicate OneIndexEach(os: seq<StackObject>) {
    forall i, j :: 0 <= i < j < |os| ==> os[i].index != os[j].index
  }

  function ReadObjects(buf: seq<Byte>, off: nat): (r: Parsed<seq<StackObject>>)
    ensures r.Got? ==> |r.value| < Width(2) && forall i :: 0 <= i < |r.value| ==> FitsStack(r.value[i])
    ensures r.Got? ==> forall i, j :: 0 <= i < j < |r.value| ==> r.value[i].index != r.value[j].index
  {
    var (os, o) :- ReadList(buf, off, 2, ReadStack);
    ListHolds(buf, off, 2, ReadStack, FitsStack);
    if OneIndexEach(os) then Got(os, o) else Fatal
  }

  lemma ObjectsRoundTrip(buf: seq<Byte>, off: nat, os: seq<StackObject>)
    requires OneIndexEach(os) && |os| < Width(2) && At(buf, off, EmitList(2, os, WriteStack))
    requires forall i :: 0 <= i < |os| ==> FitsStack(os[i])
    ensures ReadObjects(buf, off) == Got(os, off + |EmitList(2, os, WriteStack)|)
  {
    hide EmitList, ReadList, ReadStack, WriteStack, FitsStack;
    forall i | 0 <= i < |os|
      ensures Inverts(buf, ReadStack, WriteStack, os[i])
    {
      forall o: nat | At(buf, o, WriteStack(os[i]))
        ensures ReadStack(buf, o) == Got(os[i], o + |WriteStack(os[i])|)
      {
        StackExact(buf, o, os[i]);
      }
    }
    ListRoundTrip(buf, off, 2, os, ReadStack, WriteStack);
  }

  function ReadParams(buf: seq<Byte>, off: nat): (r: Parsed<seq<FlaggedType>>)
    ensures r.Got? ==> |r.value| < Width(2) && forall i :: 0 <= i < |r.value| ==> FitsFlag(r.value[i].flag)
  {
    var (ps, o) :- ReadList(buf, off, 2, ReadFlaggedType);
    ListHolds(buf, off, 2, ReadFlaggedType, (f: FlaggedType) => FitsFlag(f.flag));
    Got(ps, o)
  }

  lemma ParamsRoundTrip(buf: seq<Byte>, off: nat, ps: seq<FlaggedType>)
    requires |ps| < Width(2) && At(buf, off, EmitList(2, ps, WriteFlaggedType))
    requires forall i :: 0 <= i < |ps| ==> FitsFlag(ps[i].flag)
    ensures ReadParams(buf, off) == Got(ps, off + |EmitList(2, ps, WriteFlaggedType)|)
  {
    hide EmitList, ReadList, ReadFlaggedType, WriteFlaggedType, FitsFlag;
    forall i | 0 <= i < |ps|
      ensures Inverts(buf, ReadFlaggedType, WriteFlaggedType, ps[i])
    {
      FlaggedTypeInverts(buf, ps[i]);
    }
    ListRoundTrip(buf, off, 2, ps, ReadFlaggedType, WriteFlaggedType);
  }

  // Attributes

  datatype Flags = Flags(align: Option<nat>, vis: Byte, conv: Byte, vararg: bool, noInline: bool)

  function WriteFlags(f: Flags): (s: seq<Byte>) {
    WriteAlign(f.align) + Emit(1, f.vis) + Emit(1, f.conv) + EmitBool(f.vararg) + EmitBool(f.noInline)
  }

  function ReadFlags(buf: seq<Byte>, off: nat): (r: Parsed<Flags>)
    ensures r.Got? ==> FitsAlign(r.value.align)
  {
    var (align, o) :- ReadAlign(buf, off);
    var (vis, o1) :- ReadByte(buf, o);
    var (conv, o2) :- ReadByte(buf, o1);
    var (vararg, o3) :- ReadBool(buf, o2);
    var (noInline, o4) :- ReadBool(buf, o3);
    Got(Flags(align, vis, conv, vararg, noInline), o4)
  }

  lemma FlagsOfFuncRoundTrip(buf: seq<Byte>, off: nat, f: Flags)
    requires FitsAlign(f.align) && At(buf, off, WriteFlags(f))
    ensures ReadFlags(buf, off) == Got(f, off + |WriteFlags(f)|)
  {
    hide At, Emit, EmitBool, ReadBool, ReadByte, ReadAlign;
    AtSplits(buf);
    AlignRoundTrip(buf, off, f.align);
    ReadEmittedByte(buf, off + 4, f.vis);
    ReadEmittedByte(buf, off + 5, f.conv);
    EmitBoolSize(f.vararg);
    EmitBoolSize(f.noInline);
    ReadEmittedBool(buf, off + 6, f.vararg);
    ReadEmittedBool(buf, off + 7, f.noInline);
  }

  lemma EmitBoolSize(b: bool)
    ensures |EmitBool(b)| == 1
  {
  }

  /** The processor, the processor to tune for and the features. */
  datatype Target = Target(cpu: Name, tune: Name, features: Name)

  predicate FitsTarget(t: Target) {
    FitsName(t.cpu) && FitsName(t.tune) && FitsName(t.features)
  }

  function WriteTarget(t: Target): (s: seq<Byte>) {
    EmitName(t.cpu) + EmitName(t.tune) + EmitName(t.features)
  }

  function ReadTarget(buf: seq<Byte>, off: nat): (r: Parsed<Target>)
    ensures r.Got? ==> FitsTarget(r.value)
  {
    var (cpu, o) :- ReadString(buf, off);
    var (tune, o1) :- ReadString(buf, o);
    var (features, o2) :- ReadString(buf, o1);
    Got(Target(cpu, tune, features), o2)
  }

  lemma TargetRoundTrip(buf: seq<Byte>, off: nat, t: Target)
    requires FitsTarget(t) && At(buf, off, WriteTarget(t))
    ensures ReadTarget(buf, off) == Got(t, off + |WriteTarget(t)|)
  {
    hide At, EmitName, ReadString, FitsName;
    AtSplits(buf);
    ReadEmittedName(buf, off, t.cpu);
    ReadEmittedName(buf, off + |EmitName(t.cpu)|, t.tune);
    ReadEmittedName(buf, off + |EmitName(t.cpu)| + |EmitName(t.tune)|, t.features);
  }

  // Functions

  datatype Func = Func(name: Name, flags: Flags, target: Target, objects: seq<StackObject>, params: seq<FlaggedType>,
                       personality: Option<Name>, blocks: seq<Block>)

  ghost predicate FormedFunc(f: Func, isa: Isa) {
    FormedCode(f.blocks, isa) && OneIndexEach(f.objects)
  }

  predicate KnownFunc(f: Func, w: Numbering) {
    KnownGlobal(f.personality, w) && KnownCode(f.blocks, w)
  }

  predicate FitsFunc(f: Func, isa: Isa, w: Numbering) {
    && FitsAlign(f.flags.align) && FitsTarget(f.target)
    && |f.objects| < Width(2) && (forall i :: 0 <= i < |f.objects| ==> FitsStack(f.objects[i]))
    && |f.params| < Width(2) && (forall i :: 0 <= i < |f.params| ==> FitsFlag(f.params[i].flag))
    && FitsGlobal(f.personality, w) && FitsCode(f.blocks, isa, w)
  }

  function SettleFunc(f: Func, isa: Isa, w: Numbering): (r: Func) {
    f.(blocks := SettleCode(f.blocks, isa, w))
  }

  function WriteHead(f: Func): (s: seq<Byte>) {
    WriteFlags(f.flags) + WriteTarget(f.target)
    + EmitList(2, f.objects, WriteStack) + EmitList(2, f.params, WriteFlaggedType)
  }

  function WriteFunc(f: Func, isa: Isa, w: Numbering): (s: seq<Byte>)
    requires FormedFunc(f, isa)
  {
    WriteHead(f) + WriteGlobal(f.personality, w) + WriteBlocks(f.blocks, isa, w)
  }

  /** A function whose name and block headers were read before. */
  function ReadFunc(name: Name, hs: seq<(Name, Byte)>, isa: Isa, buf: seq<Byte>, off: nat,
                    globals: seq<Name>): (r: Parsed<Func>)
  {
    var (flags, o) :- ReadFlags(buf, off);
    var (target, o1) :- ReadTarget(buf, o);
    var (objects, o2) :- ReadObjects(buf, o1);
    var (params, o3) :- ReadParams(buf, o2);
    var (personality, o4) :- ReadGlobal(buf, o3, Tables(globals, []));
    var (blocks, o5) :- ReadCode(hs, isa, buf, o4, globals);
    Got(Func(name, flags, target, objects, params, personality, blocks), o5)
  }

  ghost predicate ReadyFunc(f: Func, isa: Isa, w: Numbering, globals: seq<Name>) {
    FormedFunc(f, isa) && KnownFunc(f, w) && Numbering1(f.blocks, isa, w, globals)
  }

  lemma EmptyAgree(w: Numbering, globals: seq<Name>, all: seq<Ref>)
    requires Numbers(w.symbols, globals, 0) && Numbers(w.insts, all, 1)
    ensures Agree(w, Tables(globals, []))
  {
  }

  lemma FuncRoundTrip(buf: seq<Byte>, off: nat, f: Func, isa: Isa, w: Numbering, globals: seq<Name>)
    requires ReadyFunc(f, isa, w, globals) && FitsFunc(f, isa, w) && At(buf, off, WriteFunc(f, isa, w))
    ensures ReadFunc(f.name, Headers(f.blocks), isa, buf, off, globals) ==
      Got(SettleFunc(f, isa, w), off + |WriteFunc(f, isa, w)|)
  {
    hide At, WriteFlags, ReadFlags, WriteTarget, ReadTarget, EmitList, ReadObjects, ReadParams, WriteGlobal, ReadGlobal,
         WriteBlocks, ReadCode, FormedCode, KnownCode, FitsCode, SettleCode, FitsTarget, FitsAlign, OneIndexEach,
           Numbers,
         FitsGlobal, KnownGlobal, FitsStack, FitsFlag, Headers, Agree;
    var a, b := WriteFlags(f.flags), WriteTarget(f.target);
    var c, d := EmitList(2, f.objects, WriteStack), EmitList(2, f.params, WriteFlaggedType);
    var e, g := WriteGlobal(f.personality, w), WriteBlocks(f.blocks, isa, w);
    AtSplit(buf, off, a + b + c + d + e, g);
    AtSplit(buf, off, a + b + c + d, e);
    AtSplit(buf, off, a + b + c, d);
    AtSplit(buf, off, a + b, c);
    AtSplit(buf, off, a, b);
    FlagsOfFuncRoundTrip(buf, off, f.flags);
    TargetRoundTrip(buf, off + |a|, f.target);
    ObjectsRoundTrip(buf, off + |a| + |b|, f.objects);
    ParamsRoundTrip(buf, off + |a| + |b| + |c|, f.params);
    EmptyAgree(w, globals, Results(f.blocks, isa));
    GlobalRoundTrip(buf, off + |a| + |b| + |c| + |d|, f.personality, w, Tables(globals, []));
    CodeRoundTrip(buf, off + |a| + |b| + |c| + |d| + |e|, f.blocks, isa, w, globals);
    GlobalSize(f.personality, w);
  }

  lemma GlobalSize(x: Option<Name>, w: Numbering)
    ensures |WriteGlobal(x, w)| == 4
  {
  }

  /** Only a function that fits is read back. */
  lemma FuncFits(buf: seq<Byte>, off: nat, f: Func, isa: Isa, w: Numbering, globals: seq<Name>)
    requires Numbering1(f.blocks, isa, w, globals)
    requires ReadFunc(f.name, Headers(f.blocks), isa, buf, off, globals).Got?
    requires ReadFunc(f.name, Headers(f.blocks), isa, buf, off, globals).value == SettleFunc(f, isa, w)
    ensures FitsFunc(f, isa, w)
  {
    hide ReadFlags, ReadTarget, ReadObjects, ReadParams, ReadGlobal, ReadCode, FitsCode, SettleCode, FitsTarget,
      FitsAlign,
         Numbers, FitsGlobal, FitsStack, FitsFlag, Headers, Agree;
    var flags := ReadFlags(buf, off);
    var target := ReadTarget(buf, flags.next);
    var objects := ReadObjects(buf, target.next);
    var params := ReadParams(buf, objects.next);
    EmptyAgree(w, globals, Results(f.blocks, isa));
    GlobalFits(buf, params.next, w, Tables(globals, []));
    var personality := ReadGlobal(buf, params.next, Tables(globals, []));
    CodeFits(buf, personality.next, f.blocks, isa, w, globals);
  }
}
