/** The reader of bitcode files: a cursor, a growing table of symbols and, for every function, a
    growing table of results and a list of fixups (core/bitcode_reader.cpp:58-193, 258-293). */
module BitcodeReader {
  import opened Bytes
  import opened BitcodeAnnot
  import opened BitcodeBody
  import opened BitcodeCode
  import opened BitcodeData
  import opened BitcodeFixups
  import opened BitcodeFunc
  import opened BitcodeInst
  import opened BitcodeNames
  import opened BitcodeProg
  import opened BitcodeValue

  /** The cursor is past what was read. */
  predicate Moved<T>(r: Parsed<T>, offset: nat) {
    r.Got? ==> offset == r.next
  }

  class Reader {
    const isa: Isa
    const buf: seq<Byte>
    var offset: nat
    var globals: seq<Name>

    constructor (isa: Isa, buf: seq<Byte>)
      ensures this.isa == isa && this.buf == buf && offset == 0 && globals == []
    {
      this.isa, this.buf, offset, globals := isa, buf, 0, [];
    }

    method Number(n: nat) returns (r: Parsed<nat>)
      modifies this`offset
      ensures r == ReadData(buf, old(offset), n) && Moved(r, offset)
    {
      r := ReadData(buf, offset, n);
      if r.Got? {
        offset := r.next;
      }
    }

    method Str() returns (r: Parsed<Name>)
      modifies this`offset
      ensures r == ReadString(buf, old(offset)) && Moved(r, offset)
    {
      r := ReadString(buf, offset);
      if r.Got? {
        offset := r.next;
      }
    }

    /** A list of names; each of them is a new symbol. */
    method PushNames() returns (r: Parsed<seq<Name>>)
      modifies this
      ensures r == ReadNameList(buf, old(offset)) && Moved(r, offset)
      ensures r.Got? ==> globals == old(globals) + r.value
    {
      hide ReadMany, Prepend, ReadString;
      var n :- Number(4);
      var xs: seq<Name> := [];
      ghost var start := offset;
      PrependNone(ReadMany(buf, start, n.0, ReadString));
      for i := 0 to n.0
        invariant ReadMany(buf, start, n.0, ReadString) == Prepend(xs, ReadMany(buf, offset, n.0 - i, ReadString))
        invariant globals == old(globals) + xs
      {
        ReadManyStep(buf, offset, n.0 - i, ReadString, xs);
        var x :- Str();
        xs, globals := xs + [x.0], globals + [x.0];
      }
      ReadManyEnd(buf, offset, ReadString, xs);
      return Got(xs, offset);
    }

    method PushObjects() returns (r: Parsed<seq<seq<Name>>>)
      modifies this
      ensures r == ReadList(buf, old(offset), 4, ReadNameList) && Moved(r, offset)
      ensures r.Got? ==> globals == old(globals) + Concat(r.value)
    {
      hide ReadMany, Prepend, ReadNameList, Concat;
      var n :- Number(4);
      var xss: seq<seq<Name>> := [];
      ghost var start := offset;
      PrependNone(ReadMany(buf, start, n.0, ReadNameList));
      ConcatNone<Name>();
      for i := 0 to n.0
        invariant ReadMany(buf, start, n.0, ReadNameList) == Prepend(xss, ReadMany(buf, offset, n.0 - i, ReadNameList))
        invariant globals == old(globals) + Concat(xss)
      {
        ReadManyStep(buf, offset, n.0 - i, ReadNameList, xss);
        var xs :- PushNames();
        ConcatNext(xss, xs.0);
        xss := xss + [xs.0];
      }
      ReadManyEnd(buf, offset, ReadNameList, xss);
      return Got(xss, offset);
    }

    method PushData() returns (r: Parsed<DataNames>)
      modifies this
      ensures r == ReadDataNames(buf, old(offset)) && Moved(r, offset)
      ensures r.Got? ==> globals == old(globals) + Concat(r.value.objects)
    {
      hide ReadString, ReadList, Concat;
      var name :- Str();
      var objects :- PushObjects();
      return Got(DataNames(name.0, objects.0), offset);
    }

    method PushAllData() returns (r: Parsed<seq<DataNames>>)
      modifies this
      ensures r == ReadList(buf, old(offset), 4, ReadDataNames) && Moved(r, offset)
      ensures r.Got? ==> globals == old(globals) + AtomNames(r.value)
    {
      hide ReadMany, Prepend, ReadDataNames, Concat, AtomNames;
      var n :- Number(4);
      var ds: seq<DataNames> := [];
      NoAtomNames();
      ghost var start := offset;
      PrependNone(ReadMany(buf, start, n.0, ReadDataNames));
      for i := 0 to n.0
        invariant ReadMany(buf, start, n.0, ReadDataNames) == Prepend(ds, ReadMany(buf, offset, n.0 - i, ReadDataNames))
        invariant globals == old(globals) + AtomNames(ds)
      {
        ReadManyStep(buf, offset, n.0 - i, ReadDataNames, ds);
        var d :- PushData();
        AtomNamesNext(ds, d.0);
        ds := ds + [d.0];
      }
      ReadManyEnd(buf, offset, ReadDataNames, ds);
      return Got(ds, offset);
    }

    method PushBlock() returns (r: Parsed<(Name, Byte)>)
      modifies this
      ensures r == ReadHeader(buf, old(offset)) && Moved(r, offset)
      ensures r.Got? ==> globals == old(globals) + [r.value.0]
    {
      var name :- Str();
      var vis :- Number(1);
      ByteWidth();
      globals := globals + [name.0];
      return Got((name.0, vis.0), offset);
    }

    /** A function is a symbol, and so are its blocks. */
    method PushFunc() returns (r: Parsed<FuncNames>)
      modifies this
      ensures r == ReadFuncNames(buf, old(offset)) && Moved(r, offset)
      ensures r.Got? ==> globals == old(globals) + ([r.value.name] + Names(r.value.blocks))
    {
      hide ReadMany, Prepend, ReadHeader, ReadString;
      var name :- Str();
      globals := globals + [name.0];
      var n :- Number(4);
      var hs: seq<(Name, Byte)> := [];
      ghost var start := offset;
      PrependNone(ReadMany(buf, start, n.0, ReadHeader));
      for i := 0 to n.0
        invariant ReadMany(buf, start, n.0, ReadHeader) == Prepend(hs, ReadMany(buf, offset, n.0 - i, ReadHeader))
        invariant globals == old(globals) + ([name.0] + Names(hs))
      {
        ReadManyStep(buf, offset, n.0 - i, ReadHeader, hs);
        var h :- PushBlock();
        assert Names(hs + [h.0]) == Names(hs) + [h.0.0];
        hs := hs + [h.0];
      }
      ReadManyEnd(buf, offset, ReadHeader, hs);
      return Got(FuncNames(name.0, hs), offset);
    }

    method PushFuncs() returns (r: Parsed<seq<FuncNames>>)
      modifies this
      ensures r == ReadList(buf, old(offset), 4, ReadFuncNames) && Moved(r, offset)
      ensures r.Got? ==> globals == old(globals) + CodeNames(r.value)
    {
      hide ReadMany, Prepend, ReadFuncNames, Names;
      var n :- Number(4);
      var fs: seq<FuncNames> := [];
      ghost var start := offset;
      PrependNone(ReadMany(buf, start, n.0, ReadFuncNames));
      for i := 0 to n.0
        invariant ReadMany(buf, start, n.0, ReadFuncNames) == Prepend(fs, ReadMany(buf, offset, n.0 - i, ReadFuncNames))
        invariant globals == old(globals) + CodeNames(fs)
      {
        ReadManyStep(buf, offset, n.0 - i, ReadFuncNames, fs);
        var f :- PushFunc();
        CodeNamesNext(fs, f.0);
        fs := fs + [f.0];
      }
      ReadManyEnd(buf, offset, ReadFuncNames, fs);
      return Got(fs, offset);
    }

    /** All symbols; afterwards the table holds them in the order of the file. */
    method ReadNames() returns (r: Parsed<Symbols>)
      requires globals == []
      modifies this
      ensures r == ReadSymbols(buf, old(offset)) && Moved(r, offset)
      ensures r.Got? ==> globals == Globals(r.value)
    {
      hide ReadString, ReadNameList, ReadList, AtomNames, CodeNames;
      var magic :- Number(4);
      if magic.0 != MAGIC {
        return Fatal;
      }
      var name :- Str();
      var externs :- PushNames();
      var data :- PushAllData();
      var funcs :- PushFuncs();
      return Got(Symbols(name.0, externs.0, data.0, funcs.0), offset);
    }

    /** The incoming values of a PHI: those whose results are there are added, the others are
        returned as fixups. */
    method ReadIncoming(map_: seq<Ref>) returns (r: Parsed<(seq<(Name, Ref)>, seq<(Name, nat)>)>)
      modifies this`offset
      ensures var raw := ReadPairs(buf, old(offset), Tables(globals, map_));
              r == if raw.Got? then Got((Arrived(raw.value, map_), Waiting(raw.value, |map_|)), raw.next)
                else raw.PropagateFailure()
      ensures Moved(r, offset)
    {
      hide ReadMany, Prepend, ReadPair, Arrived, Waiting;
      var t := Tables(globals, map_);
      var n :- Number(2);
      ghost var raw: seq<(Name, nat)> := [];
      ghost var start := offset;
      var incoming: seq<(Name, Ref)>, fixups: seq<(Name, nat)> := [], [];
      PrependNone(ReadMany(buf, start, n.0, PairReader(t)));
      NothingRaw(map_);
      for i := 0 to n.0
        invariant ReadMany(buf, start, n.0, PairReader(t)) ==
          Prepend(raw, ReadMany(buf, offset, n.0 - i, PairReader(t)))
        invariant forall j :: 0 <= j < |raw| ==> raw[j].1 > 0
        invariant incoming == Arrived(raw, map_) && fixups == Waiting(raw, |map_|)
      {
        ReadManyStep(buf, offset, n.0 - i, PairReader(t), raw);
        PairParts(buf, offset, t);
        var block := ReadSymbol(buf, offset, t);
        if block.IsFailure() {
          return block.PropagateFailure();
        }
        offset := block.next;
        var index :- Number(4);
        if index.0 == 0 {
          return Fatal;
        }
        NextRaw(raw, (block.value, index.0), map_);
        raw := raw + [(block.value, index.0)];
        if index.0 > |map_| {
          fixups := fixups + [(block.value, index.0 - 1)];
        } else {
          incoming := Add(incoming, block.value, map_[index.0 - 1]);
        }
      }
      ReadManyEnd(buf, offset, PairReader(t), raw);
      return Got((incoming, fixups), offset);
    }

    method ReadInstruction(map_: seq<Ref>) returns (r: Parsed<Draft>)
      modifies this`offset
      ensures r == ReadInst(isa, buf, old(offset), Tables(globals, map_)) && Moved(r, offset)
    {
      hide ReadAnnots, ReadPairs, Arrived, Waiting, ReadOp;
      var annots := ReadAnnots(buf, offset);
      if annots.IsFailure() {
        return annots.PropagateFailure();
      }
      offset := annots.next;
      var kind :- Number(1);
      ByteWidth();
      if kind.0 == isa.phi {
        var ty :- Number(1);
        var incoming :- ReadIncoming(map_);
        return Got(Draft(Phi(annots.value, ty.0, incoming.0.0), incoming.0.1), offset);
      }
      r := ReadOp(annots.value, kind.0, isa, buf, offset, Tables(globals, map_));
      if r.Got? {
        offset := r.next;
      }
    }

    /** One instruction, and the results it adds to the table. */
    method ReadBlockBody(b: nat, name: Name, map_: seq<Ref>)
        returns (r: Parsed<(seq<Inst>, seq<Ref>, seq<Fixup>)>, ghost ds: seq<Draft>)
      modifies this`offset
      ensures BodyRead(isa, buf, old(offset), Tables(globals, map_), b, name, r, ds) && Moved(r, offset)
    {
      hide ReadInsts, ContinueInsts, ReadInst, GatherIn, Delays;
      ds := [];
      ghost var t0 := Tables(globals, map_);
      var n := Number(4);
      if n.IsFailure() {
        return n.PropagateFailure(), [];
      }
      var insts: seq<Inst>, defs, fixups: seq<Fixup> := [], map_, [];
      ghost var start := offset;
      InstsStart(ReadInsts(n.value, isa, buf, start, t0, name, 0), b);
      for i := 0 to n.value
        invariant |insts| == |ds| == i && fixups == GatherIn(ds, b, 0)
        invariant forall k :: 0 <= k < i ==> insts[k] == ds[k].inst
        invariant ReadInsts(n.value, isa, buf, start, t0, name, 0)
               == ContinueInsts(ds, ReadInsts(n.value - i, isa, buf, offset, Tables(globals, defs), name, i))
      {
        InstsStep(n.value - i, isa, buf, offset, Tables(globals, defs), name, i, ds);
        var d := ReadInstruction(defs);
        if d.IsFailure() {
          return d.PropagateFailure(), ds;
        }
        GatherInNext(ds, d.value, b, 0);
        insts, defs := insts + [d.value.inst], defs + Defs(name, i, Rets(d.value.inst, isa));
        fixups := fixups + Delays(b, i, d.value.waiting);
        ds := ds + [d.value];
      }
      InstsEnd(isa, buf, offset, Tables(globals, defs), name, n.value, ds);
      return Got((insts, defs, fixups), offset), ds;
    }

    /** The body of a function: first every instruction, then the values that had to wait. */
    method ReadBody(hs: seq<(Name, Byte)>) returns (r: Parsed<seq<Block>>)
      modifies this`offset
      ensures r == ReadCode(hs, isa, buf, old(offset), globals) && Moved(r, offset)
    {
      hide ReadBlocks, ContinueBlocks, Gather, GatherIn, BodyRead, Verdict, FinishBlocks, AllPatched, InTable, Own;
      var blocks: seq<Block>, defs: seq<Ref>, fixups: seq<Fixup> := [], [], [];
      ghost var dss: seq<seq<Draft>> := [];
      ghost var names, t0 := Names(hs), Tables(globals, []);
      BlocksStart(ReadBlocks(names, isa, buf, offset, t0), names);
      for b := 0 to |hs|
        invariant |blocks| == |dss| == b && fixups == Gather(dss, 0)
        invariant Drafted(blocks, hs[..b], dss)
        invariant ReadBlocks(names, isa, buf, old(offset), t0)
               == ContinueBlocks(dss, ReadBlocks(names[b..], isa, buf, offset, Tables(globals, defs)))
      {
        ghost var at, before := offset, defs;
        var body, ds := ReadBlockBody(b, hs[b].0, defs);
        BlocksStep(names, b, isa, buf, at, Tables(globals, before), dss, body, ds);
        if body.IsFailure() {
          return body.PropagateFailure();
        }
        GatherNext(dss, ds, 0);
        DraftedNext(blocks, hs, dss, b, body.value.0, ds);
        blocks := blocks + [Block(hs[b].0, hs[b].1, body.value.0)];
        defs, fixups := body.value.1, fixups + body.value.2;
        dss := dss + [ds];
      }
      BlocksEnd(names, isa, buf, offset, Tables(globals, defs), dss);
      assert |names| == |hs|;
      assert ReadBlocks(names, isa, buf, old(offset), t0) == Got((dss, defs), offset);
      assert hs[..|hs|] == hs;
      VerdictExact(dss, |defs|);
      PatchedNone(blocks, hs, dss, fixups, defs);
      ghost var end := offset;
      for j := 0 to |fixups|
        invariant offset == end && Resolved(fixups[..j], |defs|)
        invariant AllPatched(blocks, hs, dss, fixups[..j], defs)
      {
        var f := fixups[j];
        FixupInRange(dss, fixups, j);
        if f.index >= |defs| {
          VerdictStops(fixups, |defs|, j);
          if f.index > |defs| {
            return Fatal;
          }
          return Wild;
        }
        ghost var before := blocks;
        PatchedSizes(blocks, hs, dss, fixups[..j], defs, f);
        if blocks[f.block].insts[f.inst].Phi? {
          var phi := blocks[f.block].insts[f.inst];
          phi := phi.(incoming := Add(phi.incoming, f.from, defs[f.index]));
          blocks := blocks[f.block := blocks[f.block].(insts := blocks[f.block].insts[f.inst := phi])];
        }
        assert fixups[..j + 1] == fixups[..j] + [f];
        ResolvedNext(fixups[..j], f, |defs|);
        AllPatchedNext(before, blocks, hs, dss, fixups[..j], f, defs);
      }
      assert fixups[..|fixups|] == fixups;
      ResolvedVerdict(fixups, |defs|);
      PatchedAll(blocks, hs, dss, defs);
      return Got(blocks, offset);
    }

    method ReadFunction(f: FuncNames) returns (r: Parsed<Func>)
      modifies this`offset
      ensures r == FuncReader(isa, Tables(globals, []))(f, buf, old(offset)) && Moved(r, offset)
    {
      hide ReadFlags, ReadTarget, ReadObjects, ReadParams, ReadGlobal, ReadCode;
      var flags := ReadFlags(buf, offset);
      if flags.IsFailure() {
        return flags.PropagateFailure();
      }
      var target := ReadTarget(buf, flags.next);
      if target.IsFailure() {
        return target.PropagateFailure();
      }
      var objects := ReadObjects(buf, target.next);
      if objects.IsFailure() {
        return objects.PropagateFailure();
      }
      var params := ReadParams(buf, objects.next);
      if params.IsFailure() {
        return params.PropagateFailure();
      }
      var personality := ReadGlobal(buf, params.next, Tables(globals, []));
      if personality.IsFailure() {
        return personality.PropagateFailure();
      }
      offset := personality.next;
      var blocks :- ReadBody(f.blocks);
      return Got(Func(f.name, flags.value, target.value, objects.value, params.value, personality.value, blocks.0),
        offset);
    }

    method ReadFunctions(fs: seq<FuncNames>) returns (r: Parsed<seq<Func>>)
      modifies this`offset
      ensures r == ReadEach(buf, old(offset), fs, FuncReader(isa, Tables(globals, []))) && Moved(r, offset)
    {
      hide ReadEach, Prepend, FuncReader;
      var funcs: seq<Func> := [];
      ghost var start := offset;
      ghost var read := FuncReader(isa, Tables(globals, []));
      PrependNone(ReadEach(buf, start, fs, read));
      assert fs[0..] == fs;
      for i := 0 to |fs|
        invariant read == FuncReader(isa, Tables(globals, []))
        invariant ReadEach(buf, start, fs, read) == Prepend(funcs, ReadEach(buf, offset, fs[i..], read))
      {
        EachStep(buf, offset, fs[i..], read, funcs);
        assert fs[i..][1..] == fs[i + 1..];
        var f :- ReadFunction(fs[i]);
        funcs := funcs + [f.0];
      }
      EachEnd(buf, offset, fs[|fs|..], read, funcs);
      return Got(funcs, offset);
    }

    /** A whole file. */
    method Read() returns (r: Parsed<Prog>)
      requires offset == 0 && globals == []
      modifies this
      ensures r == ReadProg(isa, buf) && Moved(r, offset)
    {
      hide ReadSymbols, ReadEach, ReadList, Globals, DataReader, FuncReader, ExternReader, XtorReader;
      var names :- ReadNames();
      var s, t := names.0, Tables(globals, []);
      var data := ReadEach(buf, offset, s.data, DataReader(t));
      if data.IsFailure() {
        return data.PropagateFailure();
      }
      offset := data.next;
      var funcs :- ReadFunctions(s.funcs);
      var externs := ReadEach(buf, offset, s.externs, ExternReader(t));
      if externs.IsFailure() {
        return externs.PropagateFailure();
      }
      var xtors := ReadList(buf, externs.next, 4, XtorReader(t));
      if xtors.IsFailure() {
        return xtors.PropagateFailure();
      }
      offset := xtors.next;
      return Got(Prog(s.name, data.value, funcs.0, externs.value, xtors.value), offset);
    }
  }

  lemma ConcatNone<T>()
    ensures forall xss: seq<seq<T>> :: xss == [] ==> Concat(xss) == []
  {
  }

  lemma NothingRaw(defs: seq<Ref>)
    ensures forall raw: seq<(Name, nat)> :: raw == [] ==> Arrived(raw, defs) == [] && Waiting(raw, |defs|) == []
  {
  }

  lemma NextRaw(raw: seq<(Name, nat)>, p: (Name, nat), defs: seq<Ref>)
    requires p.1 > 0 && forall j :: 0 <= j < |raw| ==> raw[j].1 > 0
    ensures Arrived(raw + [p], defs)
         == if p.1 > |defs| then Arrived(raw, defs) else Add(Arrived(raw, defs), p.0, defs[p.1 - 1])
    ensures Waiting(raw + [p], |defs|) == Waiting(raw, |defs|) + (if p.1 > |defs| then [(p.0, p.1 - 1)] else [])
  {
    hide Arrived, Waiting, Add;
    var all := raw + [p];
    assert all[..|all| - 1] == raw && all[|all| - 1] == p;
    LastArrived(all, defs);
    LastWaiting(all, |defs|);
  }

  lemma LastArrived(raw: seq<(Name, nat)>, defs: seq<Ref>)
    requires raw != [] && forall j :: 0 <= j < |raw| ==> raw[j].1 > 0
    ensures var p, before := raw[|raw| - 1], Arrived(raw[..|raw| - 1], defs);
      Arrived(raw, defs) == if p.1 > |defs| then before else Add(before, p.0, defs[p.1 - 1])
  {
    hide Add;
  }

  lemma LastWaiting(raw: seq<(Name, nat)>, n: nat)
    requires raw != [] && forall j :: 0 <= j < |raw| ==> raw[j].1 > 0
    ensures var p, before := raw[|raw| - 1], Waiting(raw[..|raw| - 1], n);
      Waiting(raw, n) == before + (if p.1 > n then [(p.0, p.1 - 1)] else [])
  {
  }

  lemma PairParts(buf: seq<Byte>, off: nat, t: Tables)
    ensures var b := ReadSymbol(buf, off, t);
            PairReader(t)(buf, off) == if b.IsFailure() then b.PropagateFailure() else
              var i := ReadData(buf, b.next, 4);
              if i.IsFailure() then i.PropagateFailure() else if i.value == 0 then Fatal
                else Got((b.value, i.value), i.next)
  {
  }

  // One block

  function ContinueInsts(ds: seq<Draft>, r: Parsed<(seq<Draft>, seq<Ref>)>): (res: Parsed<(seq<Draft>, seq<Ref>)>) {
    if r.Got? then Got((ds + r.value.0, r.value.1), r.next) else r
  }

  /** What reading the instructions of a block yields, and their drafts. */
  ghost predicate BodyRead(isa: Isa, buf: seq<Byte>, off: nat, t: Tables, b: nat, name: Name,
                           r: Parsed<(seq<Inst>, seq<Ref>, seq<Fixup>)>, ds: seq<Draft>)
  {
    var n := ReadData(buf, off, 4);
    if n.IsFailure() then r == n.PropagateFailure() else
      var s := ReadInsts(n.value, isa, buf, n.next, t, name, 0);
      if s.IsFailure() then r == s.PropagateFailure() else
        && r.Got? && r.next == s.next && ds == s.value.0 && r.value.1 == s.value.1 && r.value.2 == GatherIn(ds, b, 0)
        && |r.value.0| == |ds| && forall k :: 0 <= k < |ds| ==> r.value.0[k] == ds[k].inst
  }

  lemma InstsStart(r: Parsed<(seq<Draft>, seq<Ref>)>, b: nat)
    ensures ContinueInsts([], r) == r && GatherIn([], b, 0) == []
  {
    if r.Got? {
      assert [] + r.value.0 == r.value.0;
    }
  }

  lemma InstsStep(n: nat, isa: Isa, buf: seq<Byte>, off: nat, t: Tables, name: Name, i: nat, ds: seq<Draft>)
    requires n > 0
    ensures var d := ReadInst(isa, buf, off, t);
            ContinueInsts(ds, ReadInsts(n, isa, buf, off, t, name, i))
            == if d.IsFailure() then d.PropagateFailure()
               else ContinueInsts(ds + [d.value], ReadInsts(n - 1, isa, buf, d.next,
                 Tables(t.globals, t.defs + Defs(name, i, Rets(d.value.inst, isa))), name, i + 1))
  {
    var d := ReadInst(isa, buf, off, t);
    if d.Got? {
      var rest := ReadInsts(n - 1, isa, buf, d.next, Tables(t.globals, t.defs + Defs(name, i, Rets(d.value.inst, isa))),
        name, i + 1);
      if rest.Got? {
        assert ds + ([d.value] + rest.value.0) == (ds + [d.value]) + rest.value.0;
      }
    }
  }

  lemma InstsEnd(isa: Isa, buf: seq<Byte>, off: nat, t: Tables, name: Name, i: nat, ds: seq<Draft>)
    ensures ContinueInsts(ds, ReadInsts(0, isa, buf, off, t, name, i)) == Got((ds, t.defs), off)
  {
    assert ds + [] == ds;
  }

  // All blocks

  function ContinueBlocks(dss: seq<seq<Draft>>, r: Parsed<(seq<seq<Draft>>, seq<Ref>)>):
    (res: Parsed<(seq<seq<Draft>>, seq<Ref>)>)
  {
    if r.Got? then Got((dss + r.value.0, r.value.1), r.next) else r
  }

  lemma BlocksStart(r: Parsed<(seq<seq<Draft>>, seq<Ref>)>, names: seq<Name>)
    ensures ContinueBlocks([], r) == r && Gather([], 0) == [] && names[0..] == names
  {
    if r.Got? {
      assert [] + r.value.0 == r.value.0;
    }
  }

  lemma BlocksStep(names: seq<Name>, b: nat, isa: Isa, buf: seq<Byte>, off: nat, t: Tables, dss: seq<seq<Draft>>,
                   r: Parsed<(seq<Inst>, seq<Ref>, seq<Fixup>)>, ds: seq<Draft>)
    requires b < |names| && BodyRead(isa, buf, off, t, b, names[b], r, ds)
    ensures ContinueBlocks(dss, ReadBlocks(names[b..], isa, buf, off, t))
         == if r.IsFailure() then r.PropagateFailure()
            else ContinueBlocks(dss + [ds], ReadBlocks(names[b + 1..], isa, buf, r.next, Tables(t.globals, r.value.1)))
    ensures r.Got? ==> |r.value.0| == |ds| && r.value.2 == GatherIn(ds, b, 0) && forall k :: 0 <= k < |ds| ==>
      r.value.0[k] == ds[k].inst
  {
    hide ReadInsts, GatherIn, ReadData;
    assert names[b..][1..] == names[b + 1..] && names[b..][0] == names[b];
    if r.Got? {
      var rest := ReadBlocks(names[b + 1..], isa, buf, r.next, Tables(t.globals, r.value.1));
      if rest.Got? {
        assert dss + ([ds] + rest.value.0) == (dss + [ds]) + rest.value.0;
      }
    }
  }

  lemma BlocksEnd(names: seq<Name>, isa: Isa, buf: seq<Byte>, off: nat, t: Tables, dss: seq<seq<Draft>>)
    ensures ContinueBlocks(dss, ReadBlocks(names[|names|..], isa, buf, off, t)) == Got((dss, t.defs), off)
  {
    assert names[|names|..] == [] && dss + [] == dss;
  }

  /** The blocks hold the drafts. */
  ghost predicate Drafted(blocks: seq<Block>, hs: seq<(Name, Byte)>, dss: seq<seq<Draft>>) {
    && |blocks| == |dss| == |hs|
    && forall b: nat :: b < |blocks| ==>
         && blocks[b].name == hs[b].0 && blocks[b].vis == hs[b].1 && |blocks[b].insts| == |dss[b]|
         && forall i: nat :: i < |dss[b]| ==> blocks[b].insts[i] == dss[b][i].inst
  }

  lemma DraftedNext(blocks: seq<Block>, hs: seq<(Name, Byte)>, dss: seq<seq<Draft>>, b: nat, insts: seq<Inst>,
                    ds: seq<Draft>)
    requires b < |hs| && Drafted(blocks, hs[..b], dss)
    requires |insts| == |ds| && forall k :: 0 <= k < |ds| ==> insts[k] == ds[k].inst
    ensures Drafted(blocks + [Block(hs[b].0, hs[b].1, insts)], hs[..b + 1], dss + [ds])
  {
  }

  lemma PatchedNone(blocks: seq<Block>, hs: seq<(Name, Byte)>, dss: seq<seq<Draft>>, fs: seq<Fixup>, defs: seq<Ref>)
    requires Drafted(blocks, hs, dss)
    ensures fs[..0] == [] && Resolved([], |defs|) && AllPatched(blocks, hs, dss, [], defs)
  {
    assert forall b: nat, i: nat :: Own([], b, i) == [];
  }

  lemma FixupInRange(dss: seq<seq<Draft>>, fs: seq<Fixup>, j: nat)
    requires fs == Gather(dss, 0) && j < |fs|
    ensures fs[j].block < |dss| && fs[j].inst < |dss[fs[j].block]|
  {
    GatherFrom(dss, 0, fs[j]);
  }

  lemma PatchedSizes(blocks: seq<Block>, hs: seq<(Name, Byte)>, dss: seq<seq<Draft>>, fs: seq<Fixup>, defs: seq<Ref>,
                     f: Fixup)
    requires Resolved(fs, |defs|) && AllPatched(blocks, hs, dss, fs, defs)
    requires f.block < |dss| && f.inst < |dss[f.block]|
    ensures f.block < |blocks| && f.inst < |blocks[f.block].insts|
  {
  }

  lemma ResolvedNext(fs: seq<Fixup>, f: Fixup, n: nat)
    requires Resolved(fs, n) && f.index < n
    ensures Resolved(fs + [f], n)
  {
  }

  lemma ResolvedVerdict(fs: seq<Fixup>, n: nat)
    requires Resolved(fs, n)
    ensures Verdict(fs, n).Got?
  {
  }

  lemma AllPatchedNext(before: seq<Block>, blocks: seq<Block>, hs: seq<(Name, Byte)>, dss: seq<seq<Draft>>,
                       fs: seq<Fixup>, f: Fixup, defs: seq<Ref>)
    requires Resolved(fs, |defs|) && f.index < |defs| && Resolved(fs + [f], |defs|)
    requires AllPatched(before, hs, dss, fs, defs) && f.block < |before| && f.inst < |before[f.block].insts|
    requires var i := before[f.block].insts[f.inst];
             blocks == if !i.Phi? then before else
               before[f.block := before[f.block].(insts := before[f.block].insts[f.inst :=
                 i.(incoming := Add(i.incoming, f.from, defs[f.index]))])]
    ensures AllPatched(blocks, hs, dss, fs + [f], defs)
  {
    hide Patched;
    forall b: nat, i: nat | b < |dss| && i < |dss[b]|
      ensures blocks[b].insts[i] == Patched(dss[b][i].inst, fs + [f], b, i, defs)
    {
      assert before[b].insts[i] == Patched(dss[b][i].inst, fs, b, i, defs);
      PatchedNext(dss[b][i].inst, fs, f, b, i, defs);
    }
  }
}
