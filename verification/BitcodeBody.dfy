/** The blocks of a function in the bitcode stream: what is read is what was written, exactly
    when everything fits (core/bitcode_writer.cpp:162-180, core/bitcode_reader.cpp:173-192). */
module BitcodeBody {
  import opened Bytes
  import opened BitcodeCode
  import opened BitcodeInst
  import opened BitcodeValue

  /** The results of an instruction. */
  function Defs(name: Name, i: nat, n: nat): (r: seq<Ref>) {
    seq(n, (k: nat) => Ref(name, i, k))
  }

  /** The results of the first i instructions of a block, in order. */
  function ResultsIn(bl: Block, isa: Isa, i: nat): (r: seq<Ref>)
    requires i <= |bl.insts|
  {
    if i == 0 then [] else ResultsIn(bl, isa, i - 1) + Defs(bl.name, i - 1, Rets(bl.insts[i - 1], isa))
  }

  /** The results of the first b blocks, in order. */
  function ResultsOf(bs: seq<Block>, isa: Isa, b: nat): (r: seq<Ref>)
    requires b <= |bs|
  {
    if b == 0 then [] else ResultsOf(bs, isa, b - 1) + ResultsIn(bs[b - 1], isa, |bs[b - 1].insts|)
  }

  /** The results before instruction i of block b. */
  function Before(bs: seq<Block>, isa: Isa, b: nat, i: nat): (r: seq<Ref>)
    requires b < |bs| && i <= |bs[b].insts|
  {
    ResultsOf(bs, isa, b) + ResultsIn(bs[b], isa, i)
  }

  function Results(bs: seq<Block>, isa: Isa): (r: seq<Ref>) {
    ResultsOf(bs, isa, |bs|)
  }

  lemma {:induction false} InBlockPrefix(bl: Block, isa: Isa, i: nat, j: nat)
    requires i <= j <= |bl.insts|
    ensures ResultsIn(bl, isa, i) <= ResultsIn(bl, isa, j)
  {
    if i < j {
      InBlockPrefix(bl, isa, i, j - 1);
    }
  }

  lemma {:induction false} BlocksPrefix(bs: seq<Block>, isa: Isa, b: nat, c: nat)
    requires b <= c <= |bs|
    ensures ResultsOf(bs, isa, b) <= ResultsOf(bs, isa, c)
  {
    if b < c {
      BlocksPrefix(bs, isa, b, c - 1);
    }
  }

  lemma BeforePrefix(bs: seq<Block>, isa: Isa, b: nat, i: nat)
    requires b < |bs| && i <= |bs[b].insts|
    ensures Before(bs, isa, b, i) <= Results(bs, isa)
  {
    InBlockPrefix(bs[b], isa, i, |bs[b].insts|);
    BlocksPrefix(bs, isa, b + 1, |bs|);
    assert ResultsOf(bs, isa, b + 1) == ResultsOf(bs, isa, b) + ResultsIn(bs[b], isa, |bs[b].insts|);
  }

  /** The writer numbers the symbols and the results of a function as the reader meets them. */
  ghost predicate Numbering1(bs: seq<Block>, isa: Isa, w: Numbering, globals: seq<Name>) {
    Numbers(w.symbols, globals, 0) && Numbers(w.insts, Results(bs, isa), 1)
  }

  lemma AgreeBefore(bs: seq<Block>, isa: Isa, w: Numbering, globals: seq<Name>, b: nat, i: nat)
    requires Numbering1(bs, isa, w, globals) && b < |bs| && i <= |bs[b].insts|
    ensures Agree(w, Tables(globals, Before(bs, isa, b, i)))
  {
    hide Results, Before, Numbers, Agree;
    BeforePrefix(bs, isa, b, i);
    AgreePrefix(w, globals, Results(bs, isa), Before(bs, isa, b, i));
  }

  /** A reader that has met the first results agrees with the numbering of all. */
  lemma AgreePrefix(w: Numbering, globals: seq<Name>, all: seq<Ref>, defs: seq<Ref>)
    requires Numbers(w.symbols, globals, 0) && Numbers(w.insts, all, 1) && defs <= all
    ensures Agree(w, Tables(globals, defs))
  {
    assert defs == all[..|defs|];
  }

  ghost predicate FormedCode(bs: seq<Block>, isa: Isa) {
    forall b, i :: 0 <= b < |bs| && 0 <= i < |bs[b].insts| ==> Formed(bs[b].insts[i], isa)
  }

  predicate KnownCode(bs: seq<Block>, w: Numbering) {
    forall b, i :: 0 <= b < |bs| && 0 <= i < |bs[b].insts| ==> KnownInst(bs[b].insts[i], w)
  }

  /** Every number fits, and every operand of an instruction other than a PHI was computed by an
      instruction that comes earlier in the order of the blocks. */
  predicate FitsCode(bs: seq<Block>, isa: Isa, w: Numbering) {
    forall b :: 0 <= b < |bs| ==>
      |bs[b].insts| < Width(4) &&
      forall i :: 0 <= i < |bs[b].insts| ==> FitsInst(bs[b].insts[i], isa, w, |Before(bs, isa, b, i)|)
  }

  function SettleBlock(bs: seq<Block>, isa: Isa, w: Numbering, b: nat): (r: Block)
    requires b < |bs|
  {
    bs[b].(insts := seq(|bs[b].insts|, (i: nat) requires i < |bs[b].insts| =>
      Settle(bs[b].insts[i], w, |Before(bs, isa, b, i)|)))
  }

  function SettleCode(bs: seq<Block>, isa: Isa, w: Numbering): (r: seq<Block>) {
    seq(|bs|, (b: nat) requires b < |bs| => SettleBlock(bs, isa, w, b))
  }

  // Writing

  function WriteInsts(insts: seq<Inst>, isa: Isa, w: Numbering): (s: seq<Byte>)
    requires forall i :: 0 <= i < |insts| ==> Formed(insts[i], isa)
  {
    if insts == [] then [] else WriteInst(insts[0], isa, w) + WriteInsts(insts[1..], isa, w)
  }

  function WriteBlock(bl: Block, isa: Isa, w: Numbering): (s: seq<Byte>)
    requires forall i :: 0 <= i < |bl.insts| ==> Formed(bl.insts[i], isa)
  {
    Emit(4, |bl.insts|) + WriteInsts(bl.insts, isa, w)
  }

  function WriteBlocks(bs: seq<Block>, isa: Isa, w: Numbering): (s: seq<Byte>)
    requires FormedCode(bs, isa)
  {
    if bs == [] then [] else WriteBlock(bs[0], isa, w) + WriteBlocks(bs[1..], isa, w)
  }

  // Reading

  function ReadInsts(n: nat, isa: Isa, buf: seq<Byte>, off: nat, t: Tables, name: Name, i: nat):
    (r: Parsed<(seq<Draft>, seq<Ref>)>)
    ensures r.Got? ==> |r.value.0| == n
    decreases n
  {
    if n == 0 then Got(([], t.defs), off) else
    var (d, o) :- ReadInst(isa, buf, off, t);
    var t' := t.(defs := t.defs + Defs(name, i, Rets(d.inst, isa)));
    var (rest, o1) :- ReadInsts(n - 1, isa, buf, o, t', name, i + 1);
    Got(([d] + rest.0, rest.1), o1)
  }

  function ReadBlocks(names: seq<Name>, isa: Isa, buf: seq<Byte>, off: nat, t: Tables):
    (r: Parsed<(seq<seq<Draft>>, seq<Ref>)>)
    ensures r.Got? ==> |r.value.0| == |names|
    decreases |names|
  {
    if names == [] then Got(([], t.defs), off) else
    var (n, o) :- ReadData(buf, off, 4);
    var (ds, o1) :- ReadInsts(n, isa, buf, o, t, names[0], 0);
    var (rest, o2) :- ReadBlocks(names[1..], isa, buf, o1, t.(defs := ds.1));
    Got(([ds.0] + rest.0, rest.1), o2)
  }

  /** A value of a PHI that waits for its result. */
  datatype Fixup = Fixup(block: nat, inst: nat, from: Name, index: nat)

  function Delays(b: nat, i: nat, waiting: seq<(Name, nat)>): (r: seq<Fixup>) {
    seq(|waiting|, (j: nat) requires j < |waiting| => Fixup(b, i, waiting[j].0, waiting[j].1))
  }

  function GatherIn(ds: seq<Draft>, b: nat, i: nat): (r: seq<Fixup>)
    requires i <= |ds|
    ensures forall f :: f in r ==> f.block == b && i <= f.inst < |ds|
    decreases |ds| - i
  {
    if i == |ds| then [] else Delays(b, i, ds[i].waiting) + GatherIn(ds, b, i + 1)
  }

  /** The waiting values of all PHIs, in the order they were met. */
  function Gather(dss: seq<seq<Draft>>, b: nat): (r: seq<Fixup>)
    requires b <= |dss|
    ensures forall f :: f in r ==> b <= f.block < |dss|
    decreases |dss| - b
  {
    if b == |dss| then [] else GatherIn(dss[b], b, 0) + Gather(dss, b + 1)
  }

  /** The check of the waiting values, which lets the number just past the end through: the
      reader then reads past the end of its table. */
  function Verdict(fs: seq<Fixup>, n: nat): (r: Parsed<()>)
    ensures r.Got? <==> forall j :: 0 <= j < |fs| ==> fs[j].index < n
  {
    if fs == [] then Got((), 0)
    else if fs[0].index > n then Fatal
    else if fs[0].index == n then Wild
    else Verdict(fs[1..], n)
  }

  ghost predicate InTable(dss: seq<seq<Draft>>, n: nat) {
    forall b, i, j :: 0 <= b < |dss| && 0 <= i < |dss[b]| && 0 <= j < |dss[b][i].waiting| ==> dss[b][i].waiting[j].1 < n
  }

  lemma {:induction false} GatherInHas(ds: seq<Draft>, b: nat, i: nat, k: nat, j: nat)
    requires i <= k < |ds| && j < |ds[k].waiting|
    ensures Fixup(b, k, ds[k].waiting[j].0, ds[k].waiting[j].1) in GatherIn(ds, b, i)
    decreases |ds| - i
  {
    assert GatherIn(ds, b, i) == Delays(b, i, ds[i].waiting) + GatherIn(ds, b, i + 1);
    if i == k {
      assert Delays(b, i, ds[i].waiting)[j] == Fixup(b, k, ds[k].waiting[j].0, ds[k].waiting[j].1);
    } else {
      GatherInHas(ds, b, i + 1, k, j);
    }
  }

  lemma {:induction false} GatherHas(dss: seq<seq<Draft>>, b: nat, c: nat, k: nat, j: nat)
    requires b <= c < |dss| && k < |dss[c]| && j < |dss[c][k].waiting|
    ensures Fixup(c, k, dss[c][k].waiting[j].0, dss[c][k].waiting[j].1) in Gather(dss, b)
    decreases |dss| - b
  {
    hide GatherIn;
    assert Gather(dss, b) == GatherIn(dss[b], b, 0) + Gather(dss, b + 1);
    if b == c {
      GatherInHas(dss[b], b, 0, k, j);
    } else {
      GatherHas(dss, b + 1, c, k, j);
    }
  }

  lemma {:induction false} GatherInFrom(ds: seq<Draft>, b: nat, i: nat, f: Fixup)
    requires i <= |ds| && f in GatherIn(ds, b, i)
    ensures i <= f.inst < |ds| && (f.from, f.index) in ds[f.inst].waiting
    decreases |ds| - i
  {
    if f in Delays(b, i, ds[i].waiting) {
      var j: nat :| j < |ds[i].waiting| && Delays(b, i, ds[i].waiting)[j] == f;
      assert ds[i].waiting[j] == (f.from, f.index);
    } else {
      GatherInFrom(ds, b, i + 1, f);
    }
  }

  lemma {:induction false} GatherFrom(dss: seq<seq<Draft>>, b: nat, f: Fixup)
    requires b <= |dss| && f in Gather(dss, b)
    ensures b <= f.block < |dss| && f.inst < |dss[f.block]| && (f.from, f.index) in dss[f.block][f.inst].waiting
    decreases |dss| - b
  {
    if f in GatherIn(dss[b], b, 0) {
      GatherInFrom(dss[b], b, 0, f);
    } else {
      GatherFrom(dss, b + 1, f);
    }
  }

  /** The check passes exactly when every waiting value is in the table. */
  lemma VerdictExact(dss: seq<seq<Draft>>, n: nat)
    ensures Verdict(Gather(dss, 0), n).Got? <==> InTable(dss, n)
  {
    var fs := Gather(dss, 0);
    if Verdict(fs, n).Got? {
      forall b, i, j | 0 <= b < |dss| && 0 <= i < |dss[b]| && 0 <= j < |dss[b][i].waiting|
        ensures dss[b][i].waiting[j].1 < n
      {
        GatherHas(dss, 0, b, i, j);
      }
    }
    if InTable(dss, n) {
      forall k | 0 <= k < |fs|
        ensures fs[k].index < n
      {
        GatherFrom(dss, 0, fs[k]);
      }
    }
  }

  function FinishBlock(h: (Name, Byte), ds: seq<Draft>, defs: seq<Ref>): (r: Block)
    requires forall i, j :: 0 <= i < |ds| && 0 <= j < |ds[i].waiting| ==> ds[i].waiting[j].1 < |defs|
  {
    Block(h.0, h.1, seq(|ds|, (i: nat) requires i < |ds| => Finish(ds[i], defs)))
  }

  function FinishBlocks(hs: seq<(Name, Byte)>, dss: seq<seq<Draft>>, defs: seq<Ref>): (r: seq<Block>)
    requires |hs| == |dss| && InTable(dss, |defs|)
  {
    seq(|dss|, (b: nat) requires b < |dss| => FinishBlock(hs[b], dss[b], defs))
  }

  function Names(hs: seq<(Name, Byte)>): (r: seq<Name>)
    ensures |r| == |hs|
  {
    seq(|hs|, (b: nat) requires b < |hs| => hs[b].0)
  }

  /** The blocks of a function whose names and visibilities are known. */
  function ReadCode(hs: seq<(Name, Byte)>, isa: Isa, buf: seq<Byte>, off: nat,
                    globals: seq<Name>): (r: Parsed<seq<Block>>)
  {
    var (ds, o) :- ReadBlocks(Names(hs), isa, buf, off, Tables(globals, []));
    VerdictExact(ds.0, |ds.1|);
    var (ok, _) :- Verdict(Gather(ds.0, 0), |ds.1|);
    Got(FinishBlocks(hs, ds.0, ds.1), o)
  }

  function Headers(bs: seq<Block>): (r: seq<(Name, Byte)>)
    ensures |r| == |bs|
  {
    seq(|bs|, (b: nat) requires b < |bs| => (bs[b].name, bs[b].vis))
  }
}
