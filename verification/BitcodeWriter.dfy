/** The writer of bitcode files: it appends to a stream and numbers symbols, and the results of
    one function at a time, as it meets them (core/bitcode_writer.cpp:41-181). */
module BitcodeWriter {
  import opened Bytes
  import opened BitcodeBody
  import opened BitcodeCode
  import opened BitcodeData
  import opened BitcodeFixups
  import opened BitcodeFunc
  import opened BitcodeInst
  import opened BitcodeNames
  import opened BitcodeProg
  import opened BitcodeValue

  class Writer {
    const isa: Isa
    var os: seq<Byte>
    var symbols: map<Name, nat>
    /** The symbols in the order in which they were numbered. */
    ghost var order: seq<Name>

    ghost predicate Valid()
      reads this
    {
      symbols == NumberAll(order, 0)
    }

    constructor (isa: Isa)
      ensures this.isa == isa && os == [] && order == [] && Valid()
    {
      this.isa, os, symbols, order := isa, [], map[], [];
    }

    method Emplace(x: Name)
      requires Valid()
      modifies this`symbols, this`order
      ensures Valid() && order == old(order) + [x]
    {
      NumberAllStep(order, x, 0);
      if x !in symbols {
        symbols := symbols[x := |symbols|];
      }
      order := order + [x];
    }

    /** A list of names; each of them becomes a symbol. */
    method WriteSymbolList(xs: seq<Name>)
      requires Valid()
      modifies this
      ensures Valid() && os == old(os) + WriteList(xs) && order == old(order) + xs
    {
      hide EmitAll, Emit, NumberAll;
      os := os + Emit(4, |xs|);
      AllNone(xs, EmitName);
      for i := 0 to |xs|
        invariant Valid() && order == old(order) + xs[..i]
        invariant os == old(os) + (Emit(4, |xs|) + EmitAll(xs[..i], EmitName))
      {
        os := os + EmitName(xs[i]);
        Emplace(xs[i]);
        AllNext(xs, i, EmitName);
      }
      assert xs[..|xs|] == xs;
    }

    method WriteObjectNames(xss: seq<seq<Name>>)
      requires Valid()
      modifies this
      ensures Valid() && os == old(os) + EmitList(4, xss, WriteList) && order == old(order) + Concat(xss)
    {
      hide EmitAll, Emit, WriteList, NumberAll, Concat;
      os := os + Emit(4, |xss|);
      AllNone(xss, WriteList);
      NoObjects(xss);
      for i := 0 to |xss|
        invariant Valid() && order == old(order) + Concat(xss[..i])
        invariant os == old(os) + (Emit(4, |xss|) + EmitAll(xss[..i], WriteList))
      {
        WriteSymbolList(xss[i]);
        AllNext(xss, i, WriteList);
        ConcatNext(xss[..i], xss[i]);
        assert xss[..i + 1] == xss[..i] + [xss[i]];
      }
      assert xss[..|xss|] == xss;
    }

    method WriteAllDataNames(ds: seq<DataNames>)
      requires Valid()
      modifies this
      ensures Valid() && os == old(os) + EmitList(4, ds, WriteDataNames) && order == old(order) + AtomNames(ds)
    {
      hide EmitAll, Emit, EmitName, NumberAll, Concat;
      os := os + Emit(4, |ds|);
      AllNone(ds, WriteDataNames);
      for i := 0 to |ds|
        invariant Valid() && order == old(order) + AtomNames(ds[..i])
        invariant os == old(os) + (Emit(4, |ds|) + EmitAll(ds[..i], WriteDataNames))
      {
        os := os + EmitName(ds[i].name);
        WriteObjectNames(ds[i].objects);
        AllNext(ds, i, WriteDataNames);
        AtomNamesNext(ds[..i], ds[i]);
        assert ds[..i + 1] == ds[..i] + [ds[i]];
      }
      assert ds[..|ds|] == ds;
    }

    method WriteBlockNames(hs: seq<(Name, Byte)>)
      requires Valid()
      modifies this
      ensures Valid() && os == old(os) + EmitList(4, hs, WriteHeader) && order == old(order) + Names(hs)
    {
      hide EmitAll, Emit, EmitName, NumberAll;
      os := os + Emit(4, |hs|);
      AllNone(hs, WriteHeader);
      for i := 0 to |hs|
        invariant Valid() && order == old(order) + Names(hs[..i])
        invariant os == old(os) + (Emit(4, |hs|) + EmitAll(hs[..i], WriteHeader))
      {
        os := os + EmitName(hs[i].0) + Emit(1, hs[i].1);
        Emplace(hs[i].0);
        AllNext(hs, i, WriteHeader);
        assert Names(hs[..i + 1]) == Names(hs[..i]) + [hs[i].0];
      }
      assert hs[..|hs|] == hs;
    }

    method WriteAllFuncNames(fs: seq<FuncNames>)
      requires Valid()
      modifies this
      ensures Valid() && os == old(os) + EmitList(4, fs, WriteFuncNames) && order == old(order) + CodeNames(fs)
    {
      hide EmitAll, Emit, EmitName, NumberAll, Names;
      os := os + Emit(4, |fs|);
      AllNone(fs, WriteFuncNames);
      for i := 0 to |fs|
        invariant Valid() && order == old(order) + CodeNames(fs[..i])
        invariant os == old(os) + (Emit(4, |fs|) + EmitAll(fs[..i], WriteFuncNames))
      {
        os := os + EmitName(fs[i].name);
        Emplace(fs[i].name);
        WriteBlockNames(fs[i].blocks);
        AllNext(fs, i, WriteFuncNames);
        CodeNamesNext(fs[..i], fs[i]);
        assert fs[..i + 1] == fs[..i] + [fs[i]];
      }
      assert fs[..|fs|] == fs;
    }

    /** All symbols; afterwards the numbering is that of the file. */
    method WriteNames(s: Symbols)
      requires Valid() && os == [] && order == []
      modifies this
      ensures Valid() && os == WriteSymbols(s) && order == Globals(s)
    {
      hide EmitList, Emit, EmitName, WriteList, NumberAll, AtomNames, CodeNames;
      os := Emit(4, MAGIC) + EmitName(s.name);
      WriteSymbolList(s.externs);
      WriteAllDataNames(s.data);
      WriteAllFuncNames(s.funcs);
    }

    /** The numbers of the results of a function, from 1. */
    method NumberResults(bs: seq<Block>) returns (m: map<Ref, nat>)
      ensures m == NumberAll(Results(bs, isa), 1)
    {
      hide NumberAll, Results;
      m := map[];
      NumberNothing();
      ResultsStart(bs, isa);
      for b := 0 to |bs|
        invariant m == NumberAll(ResultsOf(bs, isa, b), 1)
      {
        InBlockStart(bs, isa, b);
        for i := 0 to |bs[b].insts|
          invariant m == NumberAll(Before(bs, isa, b, i), 1)
        {
          var n := Rets(bs[b].insts[i], isa);
          ghost var before := Before(bs, isa, b, i);
          NothingYet(before, bs[b].name, i);
          for k := 0 to n
            invariant m == NumberAll(before + Defs(bs[b].name, i, k), 1)
          {
            var r := Ref(bs[b].name, i, k);
            NumberOne(before, bs[b].name, i, k);
            if r !in m {
              m := m[r := 1 + |m|];
            }
          }
          InBlockNext(bs, isa, b, i);
        }
        InBlockEnd(bs, isa, b);
      }
      ResultsEnd(bs, isa);
    }

    /** A function, with the numbering of its own results. */
    method WriteFunction(f: Func)
      requires FormedFunc(f, isa)
      modifies this`os
      ensures os == old(os) + WriteFunc(f, isa, Numbering(symbols, NumberAll(Results(f.blocks, isa), 1)))
    {
      hide WriteHead, WriteGlobal, WriteBlocks, WriteInsts, FormedCode, NumberAll, Results, WriteInst, Formed;
      var m := NumberResults(f.blocks);
      var w := Numbering(symbols, m);
      ghost var bs := f.blocks;
      os := os + (WriteHead(f) + WriteGlobal(f.personality, w));
      ghost var start := os;
      FormedAll(bs, isa);
      NoBlocks(bs, isa, w);
      for b := 0 to |f.blocks|
        invariant FormedPart(bs, isa, b)
        invariant os == start + WriteBlocks(bs[..b], isa, w)
      {
        var bl := f.blocks[b];
        os := os + Emit(4, |bl.insts|);
        NoInsts(bl.insts, isa, w);
        for i := 0 to |bl.insts|
          invariant forall k :: 0 <= k < i ==> Formed(bl.insts[..i][k], isa)
          invariant os == start + WriteBlocks(bs[..b], isa, w) +
            (Emit(4, |bl.insts|) + WriteInsts(bl.insts[..i], isa, w))
        {
          os := os + WriteInst(bl.insts[i], isa, w);
          InstsNext(bl.insts, i, isa, w);
        }
        assert bl.insts[..|bl.insts|] == bl.insts;
        BlocksNext(bs, b, isa, w);
      }
      assert bs[..|bs|] == bs;
    }

    /** A whole file. */
    method Write(p: Prog)
      requires Valid() && os == [] && order == [] && FormedProg(p, isa)
      modifies this
      ensures os == WriteProg(p, isa)
    {
      hide WriteSymbols, Join, NumberAll, Globals, DataPieces, ExternPieces, EmitList, Results, WriteFunc, FormedFunc,
        SymbolsOf;
      WriteNames(SymbolsOf(p));
      var w := Numbering(symbols, map[]);
      os := os + Join(DataPieces(p, w));
      ghost var start, pieces := os, FuncPieces(p, isa);
      NoPieces(pieces);
      for i := 0 to |p.funcs|
        invariant w.symbols == symbols && os == start + Join(pieces[..i])
      {
        WriteFunction(p.funcs[i]);
        JoinNext(pieces, i);
      }
      assert pieces[..|pieces|] == pieces;
      os := os + Join(ExternPieces(p, w));
      os := os + EmitList(4, p.xtors, XtorWriter(w));
    }
  }

  // One more element

  lemma AllNone<T>(xs: seq<T>, write: T -> seq<Byte>)
    ensures EmitAll(xs[..0], write) == []
  {
  }

  lemma {:induction false} AllNext<T>(xs: seq<T>, i: nat, write: T -> seq<Byte>)
    requires i < |xs|
    ensures EmitAll(xs[..i + 1], write) == EmitAll(xs[..i], write) + write(xs[i])
    decreases i
  {
    if i > 0 {
      AllNext(xs[1..], i - 1, write);
      assert xs[..i + 1][1..] == xs[1..][..i] && xs[..i][1..] == xs[1..][..i - 1];
    }
  }

  lemma NoObjects(xss: seq<seq<Name>>)
    ensures Concat(xss[..0]) == []
  {
  }

  lemma NoPieces(pieces: seq<seq<Byte>>)
    ensures Join(pieces[..0]) == []
  {
  }

  lemma {:induction false} JoinNext(pieces: seq<seq<Byte>>, i: nat)
    requires i < |pieces|
    ensures Join(pieces[..i + 1]) == Join(pieces[..i]) + pieces[i]
    decreases i
  {
    if i > 0 {
      JoinNext(pieces[1..], i - 1);
      assert pieces[..i + 1][1..] == pieces[1..][..i] && pieces[..i][1..] == pieces[1..][..i - 1];
    }
  }

  lemma NumberNothing()
    ensures NumberAll<Ref>([], 1) == map[]
  {
  }

  lemma ResultsStart(bs: seq<Block>, isa: Isa)
    ensures ResultsOf(bs, isa, 0) == []
  {
  }

  lemma ResultsEnd(bs: seq<Block>, isa: Isa)
    ensures ResultsOf(bs, isa, |bs|) == Results(bs, isa)
  {
  }

  lemma InBlockStart(bs: seq<Block>, isa: Isa, b: nat)
    requires b < |bs|
    ensures Before(bs, isa, b, 0) == ResultsOf(bs, isa, b)
  {
  }

  lemma InBlockEnd(bs: seq<Block>, isa: Isa, b: nat)
    requires b < |bs|
    ensures Before(bs, isa, b, |bs[b].insts|) == ResultsOf(bs, isa, b + 1)
  {
  }

  lemma InBlockNext(bs: seq<Block>, isa: Isa, b: nat, i: nat)
    requires b < |bs| && i < |bs[b].insts|
    ensures Before(bs, isa, b, i + 1) == Before(bs, isa, b, i) + Defs(bs[b].name, i, Rets(bs[b].insts[i], isa))
  {
  }

  lemma NothingYet(before: seq<Ref>, name: Name, i: nat)
    ensures before + Defs(name, i, 0) == before
  {
  }

  lemma NumberOne(before: seq<Ref>, name: Name, i: nat, k: nat)
    ensures NumberAll(before + Defs(name, i, k + 1), 1)
         == var m := NumberAll(before + Defs(name, i, k), 1); if Ref(name, i, k) in m then m
           else m[Ref(name, i, k) := 1 + |m|]
  {
    assert before + Defs(name, i, k + 1) == (before + Defs(name, i, k)) + [Ref(name, i, k)];
    NumberAllStep(before + Defs(name, i, k), Ref(name, i, k), 1);
  }

  ghost predicate FormedPart(bs: seq<Block>, isa: Isa, b: nat) {
    b <= |bs| && FormedCode(bs, isa) && FormedCode(bs[..b], isa)
  }

  lemma FormedAll(bs: seq<Block>, isa: Isa)
    requires FormedCode(bs, isa)
    ensures forall b: nat :: b <= |bs| ==> FormedPart(bs, isa, b)
    ensures forall b, i :: 0 <= b < |bs| && 0 <= i < |bs[b].insts| ==> Formed(bs[b].insts[i], isa)
  {
  }

  lemma NoBlocks(bs: seq<Block>, isa: Isa, w: Numbering)
    requires FormedPart(bs, isa, 0)
    ensures WriteBlocks(bs[..0], isa, w) == []
  {
  }

  lemma NoInsts(insts: seq<Inst>, isa: Isa, w: Numbering)
    ensures WriteInsts(insts[..0], isa, w) == []
  {
  }

  lemma {:induction false} InstsNext(insts: seq<Inst>, i: nat, isa: Isa, w: Numbering)
    requires i < |insts| && forall k :: 0 <= k < |insts| ==> Formed(insts[k], isa)
    ensures WriteInsts(insts[..i + 1], isa, w) == WriteInsts(insts[..i], isa, w) + WriteInst(insts[i], isa, w)
    decreases i
  {
    hide Formed, WriteInst;
    if i > 0 {
      InstsNext(insts[1..], i - 1, isa, w);
      assert insts[..i + 1][1..] == insts[1..][..i] && insts[..i][1..] == insts[1..][..i - 1];
    }
  }

  lemma {:induction false} BlocksNext(bs: seq<Block>, b: nat, isa: Isa, w: Numbering)
    requires b < |bs| && FormedCode(bs, isa)
    ensures FormedCode(bs[..b], isa) && FormedCode(bs[..b + 1], isa)
    ensures WriteBlocks(bs[..b + 1], isa, w) == WriteBlocks(bs[..b], isa, w) + WriteBlock(bs[b], isa, w)
    decreases b
  {
    hide Formed, WriteInsts;
    if b > 0 {
      BlocksNext(bs[1..], b - 1, isa, w);
      assert bs[..b + 1][1..] == bs[1..][..b] && bs[..b][1..] == bs[1..][..b - 1];
    }
  }
}
