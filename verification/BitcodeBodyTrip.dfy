/** Reading back the body of a function: it is the body that was written, up to the order of the
    incoming values of PHIs, exactly when it fits. */
module BitcodeBodyTrip {
  import opened Bytes
  import opened BitcodeBody
  import opened BitcodeCode
  import opened BitcodeInst
  import opened BitcodeValue

  /** A numbered function whose operands all have a number. */
  ghost predicate Ready(bs: seq<Block>, isa: Isa, w: Numbering, globals: seq<Name>) {
    Numbering1(bs, isa, w, globals) && FormedCode(bs, isa) && KnownCode(bs, w)
  }

  function DraftAt(bs: seq<Block>, isa: Isa, w: Numbering, b: nat, i: nat): (d: Draft)
    requires b < |bs| && i < |bs[b].insts|
  {
    DraftOf(bs[b].insts[i], w, |Before(bs, isa, b, i)|)
  }

  function DraftsFrom(bs: seq<Block>, isa: Isa, w: Numbering, b: nat, i: nat): (r: seq<Draft>)
    requires b < |bs| && i <= |bs[b].insts|
    ensures |r| == |bs[b].insts| - i
  {
    seq(|bs[b].insts| - i, (j: nat) requires j < |bs[b].insts| - i => DraftAt(bs, isa, w, b, i + j))
  }

  function AllDrafts(bs: seq<Block>, isa: Isa, w: Numbering, b: nat): (r: seq<seq<Draft>>)
    requires b <= |bs|
    ensures |r| == |bs| - b
  {
    seq(|bs| - b, (c: nat) requires c < |bs| - b => DraftsFrom(bs, isa, w, b + c, 0))
  }

  lemma NextBefore(bs: seq<Block>, isa: Isa, b: nat, i: nat)
    requires b < |bs| && i < |bs[b].insts|
    ensures Before(bs, isa, b, i + 1) == Before(bs, isa, b, i) + Defs(bs[b].name, i, Rets(bs[b].insts[i], isa))
  {
  }

  lemma StartBefore(bs: seq<Block>, isa: Isa, b: nat)
    requires b < |bs|
    ensures Before(bs, isa, b, 0) == ResultsOf(bs, isa, b)
    ensures Before(bs, isa, b, |bs[b].insts|) == ResultsOf(bs, isa, b + 1)
  {
  }

  lemma DraftsStep(bs: seq<Block>, isa: Isa, w: Numbering, b: nat, i: nat)
    requires b < |bs| && i < |bs[b].insts|
    ensures DraftsFrom(bs, isa, w, b, i) == [DraftAt(bs, isa, w, b, i)] + DraftsFrom(bs, isa, w, b, i + 1)
  {
  }

  lemma DraftRets(i: Inst, isa: Isa, w: Numbering, k: nat)
    ensures Rets(DraftOf(i, w, k).inst, isa) == Rets(i, isa)
    ensures Rets(Settle(i, w, k), isa) == Rets(i, isa)
  {
  }

  lemma {:induction false} InstsRoundTrip(buf: seq<Byte>, off: nat, bs: seq<Block>, isa: Isa, w: Numbering,
                                          globals: seq<Name>, b: nat, i: nat)
    requires Ready(bs, isa, w, globals) && FitsCode(bs, isa, w) && b < |bs| && i <= |bs[b].insts|
    requires At(buf, off, WriteInsts(bs[b].insts[i..], isa, w))
    ensures ReadInsts(|bs[b].insts| - i, isa, buf, off, Tables(globals, Before(bs, isa, b, i)), bs[b].name, i)
         == Got((DraftsFrom(bs, isa, w, b, i), Before(bs, isa, b, |bs[b].insts|)),
                off + |WriteInsts(bs[b].insts[i..], isa, w)|)
    decreases |bs[b].insts| - i
  {
    hide At, Formed, KnownInst, FitsInst, Numbering1, Before, ReadInst, WriteInst, DraftOf, Agree, DraftsFrom;
    var insts := bs[b].insts;
    if i < |insts| {
      assert insts[i..][1..] == insts[i + 1..] && insts[i..][0] == insts[i];
      AtSplit(buf, off, WriteInst(insts[i], isa, w), WriteInsts(insts[i + 1..], isa, w));
      AgreeBefore(bs, isa, w, globals, b, i);
      InstRoundTrip(buf, off, insts[i], isa, w, Tables(globals, Before(bs, isa, b, i)));
      DraftRets(insts[i], isa, w, |Before(bs, isa, b, i)|);
      NextBefore(bs, isa, b, i);
      InstsRoundTrip(buf, off + |WriteInst(insts[i], isa, w)|, bs, isa, w, globals, b, i + 1);
      DraftsStep(bs, isa, w, b, i);
    } else {
      NoDrafts(bs, isa, w, b);
    }
  }

  lemma NoDrafts(bs: seq<Block>, isa: Isa, w: Numbering, b: nat)
    requires b < |bs|
    ensures DraftsFrom(bs, isa, w, b, |bs[b].insts|) == []
  {
  }

  lemma BlockRoundTrip(buf: seq<Byte>, off: nat, bs: seq<Block>, isa: Isa, w: Numbering, globals: seq<Name>, b: nat)
    requires Ready(bs, isa, w, globals) && FitsCode(bs, isa, w) && b < |bs|
    requires At(buf, off, WriteBlock(bs[b], isa, w))
    ensures ReadData(buf, off, 4) == Got(|bs[b].insts|, off + 4)
    ensures ReadInsts(|bs[b].insts|, isa, buf, off + 4, Tables(globals, ResultsOf(bs, isa, b)), bs[b].name, 0)
         == Got((DraftsFrom(bs, isa, w, b, 0), ResultsOf(bs, isa, b + 1)), off + |WriteBlock(bs[b], isa, w)|)
  {
    hide At, Formed, KnownCode, Numbering1, WriteInsts, ReadInsts, DraftsFrom, ReadData, Before, ResultsOf, Emit,
      FitsInst;
    AtSplit(buf, off, Emit(4, |bs[b].insts|), WriteInsts(bs[b].insts, isa, w));
    ReadEmitted(buf, off, 4, |bs[b].insts|);
    assert bs[b].insts[0..] == bs[b].insts;
    StartBefore(bs, isa, b);
    InstsRoundTrip(buf, off + 4, bs, isa, w, globals, b, 0);
  }

  lemma {:induction false} BlocksRoundTrip(buf: seq<Byte>, off: nat, bs: seq<Block>, isa: Isa, w: Numbering,
                                           globals: seq<Name>, b: nat)
    requires Ready(bs, isa, w, globals) && FitsCode(bs, isa, w) && b <= |bs|
    requires At(buf, off, WriteBlocks(bs[b..], isa, w))
    ensures ReadBlocks(Names(Headers(bs))[b..], isa, buf, off, Tables(globals, ResultsOf(bs, isa, b)))
         == Got((AllDrafts(bs, isa, w, b), Results(bs, isa)), off + |WriteBlocks(bs[b..], isa, w)|)
    decreases |bs| - b
  {
    hide At, Formed, KnownInst, FitsInst, Numbering1, WriteBlock, ReadInsts, DraftsFrom, ResultsOf, ReadData;
    if b < |bs| {
      assert bs[b..][1..] == bs[b + 1..] && bs[b..][0] == bs[b];
      AtSplit(buf, off, WriteBlock(bs[b], isa, w), WriteBlocks(bs[b + 1..], isa, w));
      BlockRoundTrip(buf, off, bs, isa, w, globals, b);
      BlocksRoundTrip(buf, off + |WriteBlock(bs[b], isa, w)|, bs, isa, w, globals, b + 1);
      assert Names(Headers(bs))[b..][1..] == Names(Headers(bs))[b + 1..];
      assert AllDrafts(bs, isa, w, b) == [DraftsFrom(bs, isa, w, b, 0)] + AllDrafts(bs, isa, w, b + 1);
    }
  }

  /** Finishing the drafts gives back the function. */
  lemma FinishAll(bs: seq<Block>, isa: Isa, w: Numbering, globals: seq<Name>)
    requires Ready(bs, isa, w, globals)
    ensures InTable(AllDrafts(bs, isa, w, 0), |Results(bs, isa)|)
    ensures FinishBlocks(Headers(bs), AllDrafts(bs, isa, w, 0), Results(bs, isa)) == SettleCode(bs, isa, w)
  {
    hide Formed, KnownInst, Before, Results, Numbers, DraftOf, Settle, Finish;
    var dss, all := AllDrafts(bs, isa, w, 0), Results(bs, isa);
    forall b: nat, i: nat | b < |bs| && i < |bs[b].insts|
      ensures dss[b][i] == DraftAt(bs, isa, w, b, i)
      ensures forall j :: 0 <= j < |dss[b][i].waiting| ==> dss[b][i].waiting[j].1 < |all|
      ensures Finish(dss[b][i], all) == Settle(bs[b].insts[i], w, |Before(bs, isa, b, i)|)
    {
      FinishDraft(bs[b].insts[i], isa, w, |Before(bs, isa, b, i)|, all);
    }
    forall b: nat | b < |bs|
      ensures FinishBlock(Headers(bs)[b], dss[b], all) == SettleBlock(bs, isa, w, b)
    {
      assert |dss[b]| == |bs[b].insts|;
    }
  }

  lemma CodeRoundTrip(buf: seq<Byte>, off: nat, bs: seq<Block>, isa: Isa, w: Numbering, globals: seq<Name>)
    requires Ready(bs, isa, w, globals) && FitsCode(bs, isa, w) && At(buf, off, WriteBlocks(bs, isa, w))
    ensures ReadCode(Headers(bs), isa, buf, off, globals) ==
      Got(SettleCode(bs, isa, w), off + |WriteBlocks(bs, isa, w)|)
  {
    hide Ready, FitsCode, FormedCode, ReadBlocks, WriteBlocks, AllDrafts, Verdict, Gather, FinishBlocks, Results,
      InTable;
    assert bs[0..] == bs && Names(Headers(bs))[0..] == Names(Headers(bs));
    BlocksRoundTrip(buf, off, bs, isa, w, globals, 0);
    FinishAll(bs, isa, w, globals);
    VerdictExact(AllDrafts(bs, isa, w, 0), |Results(bs, isa)|);
  }

  // Whatever is read fits

  /** The drafts of a block have as many results as the instructions of a block of bs. */
  ghost predicate SameRets(ds: seq<Draft>, bs: seq<Block>, isa: Isa, b: nat, i: nat)
    requires b < |bs| && i <= |bs[b].insts|
  {
    |ds| == |bs[b].insts| - i && forall j :: 0 <= j < |ds| ==> Rets(ds[j].inst, isa) == Rets(bs[b].insts[i + j], isa)
  }

  ghost predicate DraftsFit(ds: seq<Draft>, bs: seq<Block>, isa: Isa, w: Numbering, b: nat, i: nat)
    requires b < |bs| && i <= |bs[b].insts| && |ds| == |bs[b].insts| - i
  {
    forall j :: 0 <= j < |ds| ==> DraftFits(ds[j], isa, w, |Before(bs, isa, b, i + j)|)
  }

  lemma {:induction false} InstsFit(buf: seq<Byte>, off: nat, bs: seq<Block>, isa: Isa, w: Numbering,
                                    globals: seq<Name>, b: nat, i: nat)
    requires Numbering1(bs, isa, w, globals) && b < |bs| && i <= |bs[b].insts|
    requires var r := ReadInsts(|bs[b].insts| - i, isa, buf, off, Tables(globals, Before(bs, isa, b, i)), bs[b].name,
      i);
             r.Got? && SameRets(r.value.0, bs, isa, b, i)
    ensures var r := ReadInsts(|bs[b].insts| - i, isa, buf, off, Tables(globals, Before(bs, isa, b, i)), bs[b].name, i);
            DraftsFit(r.value.0, bs, isa, w, b, i) && r.value.1 == Before(bs, isa, b, |bs[b].insts|)
    decreases |bs[b].insts| - i
  {
    hide Numbering1, Before, ReadInst, Agree, DraftFits;
    if i < |bs[b].insts| {
      var t := Tables(globals, Before(bs, isa, b, i));
      AgreeBefore(bs, isa, w, globals, b, i);
      InstFits(isa, buf, off, w, t);
      NextBefore(bs, isa, b, i);
      var ds := ReadInsts(|bs[b].insts| - i, isa, buf, off, t, bs[b].name, i).value.0;
      var d := ReadInst(isa, buf, off, t);
      assert ds[0] == d.value;
      assert Rets(d.value.inst, isa) == Rets(bs[b].insts[i], isa);
      var rest := ReadInsts(|bs[b].insts| - (i + 1), isa, buf, d.next, Tables(globals, Before(bs, isa, b, i + 1)),
        bs[b].name, i + 1);
      assert ds == [d.value] + rest.value.0;
      forall j | 0 <= j < |rest.value.0|
        ensures Rets(rest.value.0[j].inst, isa) == Rets(bs[b].insts[i + 1 + j], isa)
      {
        assert ds[j + 1] == rest.value.0[j];
      }
      InstsFit(buf, d.next, bs, isa, w, globals, b, i + 1);
      forall j | 0 <= j < |ds|
        ensures DraftFits(ds[j], isa, w, |Before(bs, isa, b, i + j)|)
      {
        if j > 0 {
          assert ds[j] == rest.value.0[j - 1] && i + 1 + (j - 1) == i + j;
        }
      }
    }
  }

  ghost predicate AllSameRets(dss: seq<seq<Draft>>, bs: seq<Block>, isa: Isa, b: nat)
    requires b <= |bs|
  {
    |dss| == |bs| - b && forall c: nat :: c < |dss| ==> SameRets(dss[c], bs, isa, b + c, 0)
  }

  ghost predicate AllFit(dss: seq<seq<Draft>>, bs: seq<Block>, isa: Isa, w: Numbering, b: nat)
    requires b <= |bs| && AllSameRets(dss, bs, isa, b)
  {
    forall c: nat :: c < |dss| ==> |dss[c]| < Width(4) && DraftsFit(dss[c], bs, isa, w, b + c, 0)
  }

  lemma {:induction false} BlocksFit(buf: seq<Byte>, off: nat, bs: seq<Block>, isa: Isa, w: Numbering,
                                     globals: seq<Name>, b: nat)
    requires Numbering1(bs, isa, w, globals) && b <= |bs|
    requires var r := ReadBlocks(Names(Headers(bs))[b..], isa, buf, off, Tables(globals, ResultsOf(bs, isa, b)));
             r.Got? && AllSameRets(r.value.0, bs, isa, b)
    ensures var r := ReadBlocks(Names(Headers(bs))[b..], isa, buf, off, Tables(globals, ResultsOf(bs, isa, b)));
            AllFit(r.value.0, bs, isa, w, b) && r.value.1 == Results(bs, isa)
    decreases |bs| - b
  {
    hide Numbering1, ReadInsts, DraftsFit, SameRets, ResultsOf, ReadData;
    if b < |bs| {
      var names := Names(Headers(bs));
      assert names[b..][1..] == names[b + 1..] && names[b..][0] == bs[b].name;
      var t := Tables(globals, ResultsOf(bs, isa, b));
      var dss := ReadBlocks(names[b..], isa, buf, off, t).value.0;
      var n := ReadData(buf, off, 4);
      SizeFits(buf, off);
      var ds := ReadInsts(n.value, isa, buf, n.next, t, bs[b].name, 0);
      assert dss[0] == ds.value.0;
      assert SameRets(ds.value.0, bs, isa, b, 0);
      SameSize(ds.value.0, bs, isa, b);
      StartBefore(bs, isa, b);
      InstsFit(buf, n.next, bs, isa, w, globals, b, 0);
      var rest := ReadBlocks(names[b + 1..], isa, buf, ds.next, Tables(globals, ResultsOf(bs, isa, b + 1)));
      assert dss == [ds.value.0] + rest.value.0;
      forall c: nat | c < |rest.value.0|
        ensures SameRets(rest.value.0[c], bs, isa, b + 1 + c, 0)
      {
        assert dss[c + 1] == rest.value.0[c] && b + (c + 1) == b + 1 + c;
      }
      BlocksFit(buf, ds.next, bs, isa, w, globals, b + 1);
      forall c: nat | c < |dss|
        ensures |dss[c]| == |bs[b + c].insts|
        ensures |dss[c]| < Width(4) && DraftsFit(dss[c], bs, isa, w, b + c, 0)
      {
        assert SameRets(dss[c], bs, isa, b + c, 0);
        SameSize(dss[c], bs, isa, b + c);
        if c > 0 {
          assert dss[c] == rest.value.0[c - 1] && b + 1 + (c - 1) == b + c;
        }
      }
    }
  }

  lemma SizeFits(buf: seq<Byte>, off: nat)
    ensures ReadData(buf, off, 4).Got? ==> ReadData(buf, off, 4).value < Width(4)
  {
  }

  lemma SameSize(ds: seq<Draft>, bs: seq<Block>, isa: Isa, b: nat)
    requires b < |bs| && SameRets(ds, bs, isa, b, 0)
    ensures |ds| == |bs[b].insts|
  {
  }

  /** When reading yields the function, the drafts it went through have its results. */
  lemma ReadSameRets(dss: seq<seq<Draft>>, defs: seq<Ref>, bs: seq<Block>, isa: Isa, w: Numbering)
    requires |dss| == |bs| && InTable(dss, |defs|)
    requires FinishBlocks(Headers(bs), dss, defs) == SettleCode(bs, isa, w)
    ensures AllSameRets(dss, bs, isa, 0)
    ensures forall b: nat, i: nat :: b < |bs| && i < |bs[b].insts| ==>
              Finish(dss[b][i], defs) == Settle(bs[b].insts[i], w, |Before(bs, isa, b, i)|)
  {
    hide Before, Finish, Settle, Rets;
    forall b: nat | b < |dss|
      ensures |dss[b]| == |bs[b].insts| && SameRets(dss[b], bs, isa, b, 0)
      ensures forall i: nat :: i < |bs[b].insts| ==>
              Finish(dss[b][i], defs) == Settle(bs[b].insts[i], w, |Before(bs, isa, b, i)|)
    {
      var block := FinishBlock(Headers(bs)[b], dss[b], defs);
      assert block == FinishBlocks(Headers(bs), dss, defs)[b];
      assert block == SettleBlock(bs, isa, w, b);
      assert |block.insts| == |dss[b]|;
      forall i: nat | i < |dss[b]|
        ensures Finish(dss[b][i], defs) == Settle(bs[b].insts[i], w, |Before(bs, isa, b, i)|)
        ensures Rets(dss[b][i].inst, isa) == Rets(bs[b].insts[i], isa)
      {
        assert block.insts[i] == Finish(dss[b][i], defs);
        FinishRets(dss[b][i], isa, defs);
        DraftRets(bs[b].insts[i], isa, w, |Before(bs, isa, b, i)|);
      }
    }
  }

  lemma FinishRets(d: Draft, isa: Isa, defs: seq<Ref>)
    requires forall j :: 0 <= j < |d.waiting| ==> d.waiting[j].1 < |defs|
    ensures Rets(Finish(d, defs), isa) == Rets(d.inst, isa)
  {
  }

  /** Only a function that fits is read back. */
  lemma CodeFits(buf: seq<Byte>, off: nat, bs: seq<Block>, isa: Isa, w: Numbering, globals: seq<Name>)
    requires Numbering1(bs, isa, w, globals)
    requires ReadCode(Headers(bs), isa, buf, off, globals).Got?
    requires ReadCode(Headers(bs), isa, buf, off, globals).value == SettleCode(bs, isa, w)
    ensures FitsCode(bs, isa, w)
  {
    hide Numbers, Before, FinishBlocks, SettleCode, DraftFits, FitsInst, ReadBlocks, Gather, Verdict, InTable;
    var r := ReadBlocks(Names(Headers(bs)), isa, buf, off, Tables(globals, []));
    var dss, defs := r.value.0, r.value.1;
    VerdictExact(dss, |defs|);
    ReadSameRets(dss, defs, bs, isa, w);
    assert Names(Headers(bs))[0..] == Names(Headers(bs));
    BlocksFit(buf, off, bs, isa, w, globals, 0);
    forall b: nat, i: nat | b < |bs| && i < |bs[b].insts|
      ensures FitsInst(bs[b].insts[i], isa, w, |Before(bs, isa, b, i)|)
    {
      assert DraftsFit(dss[b], bs, isa, w, b, 0);
      assert DraftFits(dss[b][i], isa, w, |Before(bs, isa, b, 0 + i)|);
      Waiters(dss, |defs|, b, i);
      FinishFits(dss[b][i], isa, w, |Before(bs, isa, b, i)|, defs);
      SettleFits(bs[b].insts[i], isa, w, |Before(bs, isa, b, i)|);
    }
    forall b: nat | b < |bs|
      ensures |bs[b].insts| < Width(4)
    {
      assert SameRets(dss[b], bs, isa, 0 + b, 0);
      assert |dss[b]| < Width(4);
    }
  }

  lemma Waiters(dss: seq<seq<Draft>>, n: nat, b: nat, i: nat)
    requires InTable(dss, n) && b < |dss| && i < |dss[b]|
    ensures forall j :: 0 <= j < |dss[b][i].waiting| ==> dss[b][i].waiting[j].1 < n
  {
  }
}
