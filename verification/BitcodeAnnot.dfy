/** Annotations of instructions in the bitcode stream (core/bitcode_writer.cpp:315-360,
    core/bitcode_reader.cpp:387-435, core/annot.h:109-119). */
module BitcodeAnnot {
  import opened Bytes

  datatype DebugInfo = DebugInfo(location: int, file: Name, definition: Name)

  datatype Annot =
    | Probability(n: nat, d: nat)
    | CamlFrame(allocs: seq<nat>, infos: seq<seq<DebugInfo>>)
    | CxxLsda(cleanup: bool, catchAll: bool, catches: seq<Name>, filters: seq<Name>)

  function Kind(a: Annot): Byte {
    if a.Probability? then 0 else if a.CamlFrame? then 1 else 2
  }

  /** A set holds one annotation of a kind; setting another one changes nothing. */
  function Set(annots: seq<Annot>, a: Annot): (r: seq<Annot>) {
    if exists i :: 0 <= i < |annots| && Kind(annots[i]) == Kind(a) then annots else annots + [a]
  }

  function SetAll(annots: seq<Annot>): (r: seq<Annot>)
    ensures forall a :: a in r ==> a in annots
    ensures |r| <= |annots|
  {
    if annots == [] then [] else Set(SetAll(annots[..|annots| - 1]), annots[|annots| - 1])
  }

  predicate OneOfEach(annots: seq<Annot>) {
    forall i, j :: 0 <= i < j < |annots| ==> Kind(annots[i]) != Kind(annots[j])
  }

  /** There is one annotation of every kind that was set, and no other. */
  lemma {:induction false} SetAllKinds(annots: seq<Annot>)
    ensures OneOfEach(SetAll(annots))
    ensures forall a :: a in annots ==> HasKind(SetAll(annots), Kind(a))
  {
    if annots != [] {
      var front, a := annots[..|annots| - 1], annots[|annots| - 1];
      SetAllKinds(front);
      SetKinds(SetAll(front), a);
      forall b | b in annots
        ensures HasKind(SetAll(annots), Kind(b))
      {
        assert b in front || b == a;
      }
    }
  }

  ghost predicate HasKind(annots: seq<Annot>, k: Byte) {
    exists i :: 0 <= i < |annots| && Kind(annots[i]) == k
  }

  lemma SetKinds(annots: seq<Annot>, a: Annot)
    requires OneOfEach(annots)
    ensures OneOfEach(Set(annots, a)) && HasKind(Set(annots, a), Kind(a))
    ensures forall k :: HasKind(annots, k) ==> HasKind(Set(annots, a), k)
  {
    var r := Set(annots, a);
    if r == annots + [a] {
      assert r[|annots|] == a;
    }
    forall k | HasKind(annots, k)
      ensures HasKind(r, k)
    {
      var i :| 0 <= i < |annots| && Kind(annots[i]) == k;
      assert r[i] == annots[i];
    }
  }

  lemma {:induction false} SetAllKeeps(annots: seq<Annot>)
    requires OneOfEach(annots)
    ensures SetAll(annots) == annots
  {
    if annots != [] {
      SetAllKeeps(annots[..|annots| - 1]);
      assert annots == annots[..|annots| - 1] + [annots[|annots| - 1]];
    }
  }

  // Fields

  predicate FitsInfo(d: DebugInfo) {
    InRange(8, d.location) && FitsName(d.file) && FitsName(d.definition)
  }

  function WriteInfo(d: DebugInfo): (s: seq<Byte>) {
    EmitInt(8, d.location) + EmitName(d.file) + EmitName(d.definition)
  }

  function ReadInfo(buf: seq<Byte>, off: nat): (r: Parsed<DebugInfo>)
    ensures r.Got? ==> FitsInfo(r.value)
  {
    var (location, o) :- ReadInt(buf, off, 8);
    var (file, o1) :- ReadString(buf, o);
    var (definition, o2) :- ReadString(buf, o1);
    Got(DebugInfo(location, file, definition), o2)
  }

  lemma InfoRoundTrip(buf: seq<Byte>, off: nat, d: DebugInfo)
    requires FitsInfo(d) && At(buf, off, WriteInfo(d))
    ensures ReadInfo(buf, off) == Got(d, off + |WriteInfo(d)|)
  {
    hide At, EmitInt, ReadInt, EmitName, ReadString, FitsName, InRange;
    AtSplit(buf, off, EmitInt(8, d.location) + EmitName(d.file), EmitName(d.definition));
    AtSplit(buf, off, EmitInt(8, d.location), EmitName(d.file));
    ReadEmittedInt(buf, off, 8, d.location);
    ReadEmittedName(buf, off + 8, d.file);
    ReadEmittedName(buf, off + 8 + |EmitName(d.file)|, d.definition);
  }

  lemma InfoInverts(buf: seq<Byte>, d: DebugInfo)
    requires FitsInfo(d)
    ensures Inverts(buf, ReadInfo, WriteInfo, d)
  {
    hide At, ReadInfo, WriteInfo, FitsInfo;
    forall off: nat | At(buf, off, WriteInfo(d))
      ensures ReadInfo(buf, off) == Got(d, off + |WriteInfo(d)|)
    {
      InfoRoundTrip(buf, off, d);
    }
  }

  predicate FitsInfos(ds: seq<DebugInfo>) {
    |ds| < Width(1) && forall i :: 0 <= i < |ds| ==> FitsInfo(ds[i])
  }

  function WriteInfos(ds: seq<DebugInfo>): (s: seq<Byte>) {
    EmitList(1, ds, WriteInfo)
  }

  function ReadInfos(buf: seq<Byte>, off: nat): (r: Parsed<seq<DebugInfo>>)
    ensures r.Got? ==> FitsInfos(r.value)
  {
    var (ds, o) :- ReadList(buf, off, 1, ReadInfo);
    ListHolds(buf, off, 1, ReadInfo, FitsInfo);
    Got(ds, o)
  }

  lemma InfosInvert(buf: seq<Byte>, ds: seq<DebugInfo>)
    requires FitsInfos(ds)
    ensures Inverts(buf, ReadInfos, WriteInfos, ds)
  {
    forall off: nat | At(buf, off, WriteInfos(ds))
      ensures ReadInfos(buf, off) == Got(ds, off + |WriteInfos(ds)|)
    {
      hide FitsInfo, ReadInfo, WriteInfo, EmitList, ReadList;
      forall i | 0 <= i < |ds|
        ensures Inverts(buf, ReadInfo, WriteInfo, ds[i])
      {
        InfoInverts(buf, ds[i]);
      }
      ListRoundTrip(buf, off, 1, ds, ReadInfo, WriteInfo);
    }
  }

  predicate FitsNames(xs: seq<Name>) {
    |xs| < Width(1) && forall i :: 0 <= i < |xs| ==> FitsName(xs[i])
  }

  function WriteNames(xs: seq<Name>): (s: seq<Byte>) {
    EmitList(1, xs, EmitName)
  }

  function ReadNames(buf: seq<Byte>, off: nat): (r: Parsed<seq<Name>>)
    ensures r.Got? ==> FitsNames(r.value)
  {
    var (xs, o) :- ReadList(buf, off, 1, ReadString);
    ListHolds(buf, off, 1, ReadString, FitsName);
    Got(xs, o)
  }

  lemma NameInverts(buf: seq<Byte>, s: Name)
    requires FitsName(s)
    ensures Inverts(buf, ReadString, EmitName, s)
  {
    forall off: nat | At(buf, off, EmitName(s))
      ensures ReadString(buf, off) == Got(s, off + |EmitName(s)|)
    {
      ReadEmittedName(buf, off, s);
    }
  }

  lemma NamesRoundTrip(buf: seq<Byte>, off: nat, xs: seq<Name>)
    requires FitsNames(xs) && At(buf, off, WriteNames(xs))
    ensures ReadNames(buf, off) == Got(xs, off + |WriteNames(xs)|)
  {
    hide EmitList, ReadList, EmitName, ReadString;
    forall i | 0 <= i < |xs|
      ensures Inverts(buf, ReadString, EmitName, xs[i])
    {
      NameInverts(buf, xs[i]);
    }
    ListRoundTrip(buf, off, 1, xs, ReadString, EmitName);
  }

  predicate FitsAllocs(xs: seq<nat>) {
    |xs| < Width(1) && forall i :: 0 <= i < |xs| ==> xs[i] < Width(8)
  }

  function WriteAlloc(a: nat): (s: seq<Byte>) {
    Emit(8, a)
  }

  function ReadAlloc(buf: seq<Byte>, off: nat): (r: Parsed<nat>) {
    ReadData(buf, off, 8)
  }

  function ReadAllocs(buf: seq<Byte>, off: nat): (r: Parsed<seq<nat>>)
    ensures r.Got? ==> FitsAllocs(r.value)
  {
    var (xs, o) :- ReadList(buf, off, 1, ReadAlloc);
    ListHolds(buf, off, 1, ReadAlloc, (x: nat) => x < Width(8));
    Got(xs, o)
  }

  lemma AllocsRoundTrip(buf: seq<Byte>, off: nat, xs: seq<nat>)
    requires FitsAllocs(xs) && At(buf, off, EmitList(1, xs, WriteAlloc))
    ensures ReadAllocs(buf, off) == Got(xs, off + |EmitList(1, xs, WriteAlloc)|)
  {
    hide EmitList, ReadList;
    forall i | 0 <= i < |xs|
      ensures Inverts(buf, ReadAlloc, WriteAlloc, xs[i])
    {
      forall o: nat | At(buf, o, WriteAlloc(xs[i]))
        ensures ReadAlloc(buf, o) == Got(xs[i], o + |WriteAlloc(xs[i])|)
      {
        ReadEmitted(buf, o, 8, xs[i]);
      }
    }
    ListRoundTrip(buf, off, 1, xs, ReadAlloc, WriteAlloc);
  }

  // Annotations

  predicate FitsAnnot(a: Annot) {
    match a
    case Probability(n, d) => n < Width(4) && d < Width(4)
    case CamlFrame(allocs, infos) =>
      FitsAllocs(allocs) && |infos| < Width(1) && forall i :: 0 <= i < |infos| ==> FitsInfos(infos[i])
    case CxxLsda(_, _, catches, filters) => FitsNames(catches) && FitsNames(filters)
  }

  function WriteBody(a: Annot): (s: seq<Byte>) {
    match a
    case Probability(n, d) => Emit(4, n) + Emit(4, d)
    case CamlFrame(allocs, infos) => EmitList(1, allocs, WriteAlloc) + EmitList(1, infos, WriteInfos)
    case CxxLsda(cleanup, catchAll, catches, filters) =>
      EmitBool(cleanup) + EmitBool(catchAll) + WriteNames(catches) + WriteNames(filters)
  }

  function WriteAnnot(a: Annot): (s: seq<Byte>) {
    Emit(1, Kind(a)) + WriteBody(a)
  }

  function ReadProbability(buf: seq<Byte>, off: nat): (r: Parsed<Annot>)
    ensures r.Got? ==> FitsAnnot(r.value)
  {
    var (n, o) :- ReadData(buf, off, 4);
    var (d, o1) :- ReadData(buf, o, 4);
    Got(Probability(n, d), o1)
  }

  function ReadFrame(buf: seq<Byte>, off: nat): (r: Parsed<Annot>)
    ensures r.Got? ==> FitsAnnot(r.value)
  {
    var (allocs, o) :- ReadAllocs(buf, off);
    var (infos, o1) :- ReadList(buf, o, 1, ReadInfos);
    ListHolds(buf, o, 1, ReadInfos, FitsInfos);
    Got(CamlFrame(allocs, infos), o1)
  }

  function ReadLsda(buf: seq<Byte>, off: nat): (r: Parsed<Annot>)
    ensures r.Got? ==> FitsAnnot(r.value)
  {
    var (cleanup, o) :- ReadBool(buf, off);
    var (catchAll, o1) :- ReadBool(buf, o);
    var (catches, o2) :- ReadNames(buf, o1);
    var (filters, o3) :- ReadNames(buf, o2);
    Got(CxxLsda(cleanup, catchAll, catches, filters), o3)
  }

  function ReadAnnot(buf: seq<Byte>, off: nat): (r: Parsed<Annot>)
    ensures r.Got? ==> FitsAnnot(r.value)
  {
    var (kind, o) :- ReadData(buf, off, 1);
    if kind == 0 then ReadProbability(buf, o)
    else if kind == 1 then ReadFrame(buf, o)
    else if kind == 2 then ReadLsda(buf, o)
    else Fatal
  }

  lemma FrameRoundTrip(buf: seq<Byte>, off: nat, a: Annot)
    requires a.CamlFrame? && FitsAnnot(a) && At(buf, off, WriteBody(a))
    ensures ReadFrame(buf, off) == Got(a, off + |WriteBody(a)|)
  {
    hide EmitList, ReadList, WriteInfos, ReadInfos, FitsInfos, ReadAllocs, FitsAllocs;
    AtSplits(buf);
    AllocsRoundTrip(buf, off, a.allocs);
    forall i | 0 <= i < |a.infos|
      ensures Inverts(buf, ReadInfos, WriteInfos, a.infos[i])
    {
      InfosInvert(buf, a.infos[i]);
    }
    ListRoundTrip(buf, off + |EmitList(1, a.allocs, WriteAlloc)|, 1, a.infos, ReadInfos, WriteInfos);
  }

  lemma LsdaRoundTrip(buf: seq<Byte>, off: nat, a: Annot)
    requires a.CxxLsda? && FitsAnnot(a) && At(buf, off, WriteBody(a))
    ensures ReadLsda(buf, off) == Got(a, off + |WriteBody(a)|)
  {
    hide WriteNames, ReadNames, FitsNames, At, ReadBool, Emit, ReadData;
    AtSplits(buf);
    ReadEmittedBool(buf, off, a.cleanup);
    ReadEmittedBool(buf, off + 1, a.catchAll);
    NamesRoundTrip(buf, off + 2, a.catches);
    NamesRoundTrip(buf, off + 2 + |WriteNames(a.catches)|, a.filters);
  }

  lemma ProbabilityRoundTrip(buf: seq<Byte>, off: nat, a: Annot)
    requires a.Probability? && FitsAnnot(a) && At(buf, off, WriteBody(a))
    ensures ReadProbability(buf, off) == Got(a, off + |WriteBody(a)|)
  {
    AtSplits(buf);
    ReadEmitted(buf, off, 4, a.n);
    ReadEmitted(buf, off + 4, 4, a.d);
  }

  lemma AnnotRoundTrip(buf: seq<Byte>, off: nat, a: Annot)
    requires FitsAnnot(a) && At(buf, off, WriteAnnot(a))
    ensures ReadAnnot(buf, off) == Got(a, off + |WriteAnnot(a)|)
  {
    hide At, ReadFrame, ReadLsda, ReadProbability, FitsAnnot, WriteBody, Emit, ReadData;
    AtSplit(buf, off, Emit(1, Kind(a)), WriteBody(a));
    ReadEmitted(buf, off, 1, Kind(a));
    match a
    case Probability(_, _) => ProbabilityRoundTrip(buf, off + 1, a);
    case CamlFrame(_, _) => FrameRoundTrip(buf, off + 1, a);
    case CxxLsda(_, _, _, _) => LsdaRoundTrip(buf, off + 1, a);
  }

  lemma AnnotInverts(buf: seq<Byte>, a: Annot)
    requires FitsAnnot(a)
    ensures Inverts(buf, ReadAnnot, WriteAnnot, a)
  {
    hide FitsAnnot, ReadAnnot, WriteAnnot;
    forall off: nat | At(buf, off, WriteAnnot(a))
      ensures ReadAnnot(buf, off) == Got(a, off + |WriteAnnot(a)|)
    {
      AnnotRoundTrip(buf, off, a);
    }
  }

  predicate FitsAnnots(xs: seq<Annot>) {
    |xs| < Width(1) && forall i :: 0 <= i < |xs| ==> FitsAnnot(xs[i])
  }

  function WriteAnnots(xs: seq<Annot>): (s: seq<Byte>) {
    EmitList(1, xs, WriteAnnot)
  }

  function ReadAnnots(buf: seq<Byte>, off: nat): (r: Parsed<seq<Annot>>)
    ensures r.Got? ==> FitsAnnots(r.value)
  {
    var (xs, o) :- ReadList(buf, off, 1, ReadAnnot);
    ListHolds(buf, off, 1, ReadAnnot, FitsAnnot);
    SetAllFits(xs);
    Got(SetAll(xs), o)
  }

  lemma SetAllFits(xs: seq<Annot>)
    requires FitsAnnots(xs)
    ensures FitsAnnots(SetAll(xs))
  {
    forall i | 0 <= i < |SetAll(xs)|
      ensures FitsAnnot(SetAll(xs)[i])
    {
      assert SetAll(xs)[i] in xs;
    }
  }

  lemma AnnotsRoundTrip(buf: seq<Byte>, off: nat, xs: seq<Annot>)
    requires OneOfEach(xs) && FitsAnnots(xs) && At(buf, off, WriteAnnots(xs))
    ensures ReadAnnots(buf, off) == Got(xs, off + |WriteAnnots(xs)|)
  {
    hide FitsAnnot, ReadAnnot, WriteAnnot, EmitList, ReadList;
    forall i | 0 <= i < |xs|
      ensures Inverts(buf, ReadAnnot, WriteAnnot, xs[i])
    {
      AnnotInverts(buf, xs[i]);
    }
    ListRoundTrip(buf, off, 1, xs, ReadAnnot, WriteAnnot);
    SetAllKeeps(xs);
  }
}
