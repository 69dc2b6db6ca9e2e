/** Reading lists in a loop, and patching PHIs with a list of fixups
    (core/bitcode_reader.cpp:175-192, 272-288). */
module BitcodeFixups {
  import opened Bytes
  import opened BitcodeBody
  import opened BitcodeCode
  import opened BitcodeNames
  import opened BitcodeValue

  // Lists that are read in a loop

  function Prepend<T>(xs: seq<T>, r: Parsed<seq<T>>): (res: Parsed<seq<T>>) {
    if r.Got? then Got(xs + r.value, r.next) else r
  }

  lemma ReadManyStep<T>(buf: seq<Byte>, off: nat, n: nat, read: (seq<Byte>, nat) -> Parsed<T>, xs: seq<T>)
    requires n > 0
    ensures var x := read(buf, off);
            Prepend(xs, ReadMany(buf, off, n, read))
            == if x.Got? then Prepend(xs + [x.value], ReadMany(buf, x.next, n - 1, read)) else x.PropagateFailure()
  {
    var x := read(buf, off);
    if x.Got? {
      var rest := ReadMany(buf, x.next, n - 1, read);
      if rest.Got? {
        assert xs + ([x.value] + rest.value) == (xs + [x.value]) + rest.value;
      }
    }
  }

  lemma PrependNone<T>(r: Parsed<seq<T>>)
    ensures Prepend([], r) == r
  {
    if r.Got? {
      assert [] + r.value == r.value;
    }
  }

  lemma ReadManyEnd<T>(buf: seq<Byte>, off: nat, read: (seq<Byte>, nat) -> Parsed<T>, xs: seq<T>)
    ensures Prepend(xs, ReadMany(buf, off, 0, read)) == Got(xs, off)
  {
    assert xs + [] == xs;
  }

  lemma EachStep<K, T>(buf: seq<Byte>, off: nat, keys: seq<K>, read: (K, seq<Byte>, nat) -> Parsed<T>, xs: seq<T>)
    requires keys != []
    ensures var x := read(keys[0], buf, off);
            Prepend(xs, ReadEach(buf, off, keys, read))
            == if x.Got? then Prepend(xs + [x.value], ReadEach(buf, x.next, keys[1..], read)) else x.PropagateFailure()
  {
    var x := read(keys[0], buf, off);
    if x.Got? {
      var rest := ReadEach(buf, x.next, keys[1..], read);
      if rest.Got? {
        assert xs + ([x.value] + rest.value) == (xs + [x.value]) + rest.value;
      }
    }
  }

  lemma EachEnd<K, T>(buf: seq<Byte>, off: nat, keys: seq<K>, read: (K, seq<Byte>, nat) -> Parsed<T>, xs: seq<T>)
    requires keys == []
    ensures Prepend(xs, ReadEach(buf, off, keys, read)) == Got(xs, off)
  {
    assert xs + [] == xs;
  }

  lemma {:induction false} ConcatNext<T>(xss: seq<seq<T>>, xs: seq<T>)
    ensures Concat(xss + [xs]) == Concat(xss) + xs
  {
    if xss == [] {
      assert xss + [xs] == [xs];
    } else {
      ConcatNext(xss[1..], xs);
      assert (xss + [xs])[1..] == xss[1..] + [xs];
      Assoc(xss[0], Concat(xss[1..]), xs);
    }
  }

  lemma NoAtomNames()
    ensures AtomNames([]) == []
  {
  }

  lemma {:induction false} AtomNamesNext(ds: seq<DataNames>, d: DataNames)
    ensures AtomNames(ds + [d]) == AtomNames(ds) + Concat(d.objects)
  {
    hide Concat;
    if ds == [] {
      assert ds + [d] == [d];
    } else {
      AtomNamesNext(ds[1..], d);
      assert (ds + [d])[1..] == ds[1..] + [d];
      Assoc(Concat(ds[0].objects), AtomNames(ds[1..]), Concat(d.objects));
    }
  }

  lemma {:induction false} CodeNamesNext(fs: seq<FuncNames>, f: FuncNames)
    ensures CodeNames(fs + [f]) == CodeNames(fs) + ([f.name] + Names(f.blocks))
  {
    hide Names;
    if fs == [] {
      assert fs + [f] == [f];
    } else {
      CodeNamesNext(fs[1..], f);
      assert (fs + [f])[1..] == fs[1..] + [f];
      Assoc([fs[0].name] + Names(fs[0].blocks), CodeNames(fs[1..]), [f.name] + Names(f.blocks));
    }
  }

  lemma Assoc<T>(a: seq<T>, b: seq<T>, c: seq<T>)
    ensures a + (b + c) == (a + b) + c
  {
  }

  // Fixups

  /** The values that wait for one PHI. */
  function Own(fs: seq<Fixup>, b: nat, i: nat): (r: seq<(Name, nat)>)
    ensures forall p :: p in r ==> Fixup(b, i, p.0, p.1) in fs
  {
    if fs == [] then [] else
    var f := fs[|fs| - 1];
    Own(fs[..|fs| - 1], b, i) + (if f.block == b && f.inst == i then [(f.from, f.index)] else [])
  }

  lemma {:induction false} OwnJoined(fs: seq<Fixup>, gs: seq<Fixup>, b: nat, i: nat)
    ensures Own(fs + gs, b, i) == Own(fs, b, i) + Own(gs, b, i)
  {
    if gs == [] {
      assert fs + gs == fs;
    } else {
      var front := gs[..|gs| - 1];
      OwnJoined(fs, front, b, i);
      assert (fs + gs)[..|fs + gs| - 1] == fs + front && (fs + gs)[|fs + gs| - 1] == gs[|gs| - 1];
      var f := gs[|gs| - 1];
      Assoc(Own(fs, b, i), Own(front, b, i), if f.block == b && f.inst == i then [(f.from, f.index)] else []);
    }
  }

  lemma {:induction false} OwnOthers(fs: seq<Fixup>, b: nat, i: nat)
    requires forall f :: f in fs ==> f.block != b || f.inst != i
    ensures Own(fs, b, i) == []
  {
    if fs != [] {
      OwnOthers(fs[..|fs| - 1], b, i);
    }
  }

  lemma {:induction false} OwnDelays(b: nat, i: nat, waiting: seq<(Name, nat)>)
    ensures Own(Delays(b, i, waiting), b, i) == waiting
  {
    if waiting != [] {
      var front := waiting[..|waiting| - 1];
      OwnDelays(b, i, front);
      assert Delays(b, i, waiting)[..|waiting| - 1] == Delays(b, i, front);
      assert waiting == front + [waiting[|waiting| - 1]];
    }
  }

  lemma {:induction false} OwnGatherIn(ds: seq<Draft>, b: nat, k: nat, i: nat)
    requires k <= |ds| && i < |ds|
    ensures Own(GatherIn(ds, b, k), b, i) == if k <= i then ds[i].waiting else []
    decreases |ds| - k
  {
    hide Own;
    if k > i {
      OwnOthers(GatherIn(ds, b, k), b, i);
    } else {
      var here := Delays(b, k, ds[k].waiting);
      OwnJoined(here, GatherIn(ds, b, k + 1), b, i);
      OwnGatherIn(ds, b, k + 1, i);
      if k == i {
        OwnDelays(b, k, ds[k].waiting);
      } else {
        OwnOthers(here, b, i);
      }
    }
  }

  /** The fixups of a PHI are the values that waited for it, in order. */
  lemma {:induction false} OwnGather(dss: seq<seq<Draft>>, c: nat, b: nat, i: nat)
    requires c <= |dss| && b < |dss| && i < |dss[b]|
    ensures Own(Gather(dss, c), b, i) == if c <= b then dss[b][i].waiting else []
    decreases |dss| - c
  {
    hide Own, GatherIn;
    if c > b {
      OwnOthers(Gather(dss, c), b, i);
    } else {
      OwnJoined(GatherIn(dss[c], c, 0), Gather(dss, c + 1), b, i);
      OwnGather(dss, c + 1, b, i);
      if c == b {
        OwnGatherIn(dss[b], b, 0, i);
      } else {
        OwnOthers(GatherIn(dss[c], c, 0), b, i);
      }
    }
  }

  lemma {:induction false} GatherNext(dss: seq<seq<Draft>>, ds: seq<Draft>, b: nat)
    requires b <= |dss|
    ensures Gather(dss + [ds], b) == Gather(dss, b) + GatherIn(ds, |dss|, 0)
    decreases |dss| - b
  {
    var all := dss + [ds];
    if b == |dss| {
      assert Gather(all, b + 1) == [];
    } else {
      GatherNext(dss, ds, b + 1);
    }
  }

  lemma {:induction false} GatherInNext(ds: seq<Draft>, d: Draft, b: nat, i: nat)
    requires i <= |ds|
    ensures GatherIn(ds + [d], b, i) == GatherIn(ds, b, i) + Delays(b, |ds|, d.waiting)
    decreases |ds| - i
  {
    var all := ds + [d];
    if i == |ds| {
      assert GatherIn(all, b, i + 1) == [];
    } else {
      GatherInNext(ds, d, b, i + 1);
    }
  }

  lemma {:induction false} VerdictStops(fs: seq<Fixup>, n: nat, j: nat)
    requires j < |fs| && fs[j].index >= n && forall k :: 0 <= k < j ==> fs[k].index < n
    ensures Verdict(fs, n) == if fs[j].index > n then Fatal else Wild
    decreases j
  {
    if j > 0 {
      VerdictStops(fs[1..], n, j - 1);
    }
  }

  /** The reader reads past the end of its table of results exactly when, of all the fixups out
      of range, the first one is just past the end: the check lets it through. */
  lemma {:induction false} WildExact(fs: seq<Fixup>, n: nat)
    ensures Verdict(fs, n).Wild? <==>
            exists j: nat :: j < |fs| && fs[j].index == n && forall k :: 0 <= k < j ==> fs[k].index < n
  {
    if Verdict(fs, n).Wild? {
      if fs[0].index != n {
        WildExact(fs[1..], n);
        var j: nat :| j < |fs[1..]| && fs[1..][j].index == n && forall k :: 0 <= k < j ==> fs[1..][k].index < n;
        assert fs[j + 1].index == n;
        forall k | 0 <= k < j + 1
          ensures fs[k].index < n
        {
          if k > 0 {
            assert fs[1..][k - 1].index < n;
          }
        }
      }
    }
    if j: nat :| j < |fs| && fs[j].index == n && forall k :: 0 <= k < j ==> fs[k].index < n {
      VerdictStops(fs, n, j);
    }
  }

  predicate Resolved(fs: seq<Fixup>, n: nat) {
    forall j :: 0 <= j < |fs| ==> fs[j].index < n
  }

  lemma OwnResolved(fs: seq<Fixup>, b: nat, i: nat, n: nat)
    requires Resolved(fs, n)
    ensures forall j :: 0 <= j < |Own(fs, b, i)| ==> Own(fs, b, i)[j].1 < n
  {
    forall j | 0 <= j < |Own(fs, b, i)|
      ensures Own(fs, b, i)[j].1 < n
    {
      assert Own(fs, b, i)[j] in Own(fs, b, i);
    }
  }

  /** An instruction after some of the fixups. */
  function Patched(i: Inst, fs: seq<Fixup>, b: nat, k: nat, defs: seq<Ref>): (r: Inst)
    requires Resolved(fs, |defs|)
    ensures r.Phi? == i.Phi?
  {
    OwnResolved(fs, b, k, |defs|);
    if i.Phi? then i.(incoming := AddWaiting(i.incoming, Own(fs, b, k), defs)) else i
  }

  ghost predicate AllPatched(blocks: seq<Block>, hs: seq<(Name, Byte)>, dss: seq<seq<Draft>>, fs: seq<Fixup>,
                             defs: seq<Ref>)
    requires Resolved(fs, |defs|)
  {
    && |blocks| == |dss| == |hs|
    && forall b: nat :: b < |blocks| ==>
         && blocks[b].name == hs[b].0 && blocks[b].vis == hs[b].1 && |blocks[b].insts| == |dss[b]|
         && forall i: nat :: i < |dss[b]| ==> blocks[b].insts[i] == Patched(dss[b][i].inst, fs, b, i, defs)
  }

  /** One more fixup changes only its PHI. */
  lemma PatchedNext(i: Inst, fs: seq<Fixup>, f: Fixup, b: nat, k: nat, defs: seq<Ref>)
    requires Resolved(fs, |defs|) && f.index < |defs| && Resolved(fs + [f], |defs|)
    ensures Patched(i, fs + [f], b, k, defs)
         == var p := Patched(i, fs, b, k, defs);
            if p.Phi? && f.block == b && f.inst == k then p.(incoming := Add(p.incoming, f.from, defs[f.index])) else p
  {
    assert (fs + [f])[..|fs|] == fs;
    var own := Own(fs, b, k);
    OwnResolved(fs, b, k, |defs|);
    OwnResolved(fs + [f], b, k, |defs|);
    if f.block == b && f.inst == k {
      assert Own(fs + [f], b, k) == own + [(f.from, f.index)];
      if i.Phi? {
        AddWaitingNext(i.incoming, own, (f.from, f.index), defs);
      }
    } else {
      assert Own(fs + [f], b, k) == own;
    }
  }

  lemma AddWaitingNext(incoming: seq<(Name, Ref)>, waiting: seq<(Name, nat)>, p: (Name, nat), defs: seq<Ref>)
    requires p.1 < |defs|
    requires forall j :: 0 <= j < |waiting| ==> waiting[j].1 < |defs|
    ensures AddWaiting(incoming, waiting + [p], defs) == Add(AddWaiting(incoming, waiting, defs), p.0, defs[p.1])
  {
    assert (waiting + [p])[..|waiting|] == waiting;
  }

  /** After all the fixups every PHI has the values that waited for it. */
  lemma PatchedAll(blocks: seq<Block>, hs: seq<(Name, Byte)>, dss: seq<seq<Draft>>, defs: seq<Ref>)
    requires InTable(dss, |defs|)
    requires Resolved(Gather(dss, 0), |defs|)
    requires AllPatched(blocks, hs, dss, Gather(dss, 0), defs)
    ensures blocks == FinishBlocks(hs, dss, defs)
  {
    hide Gather, Own, AddWaiting;
    var done := FinishBlocks(hs, dss, defs);
    forall b: nat | b < |blocks|
      ensures blocks[b] == done[b]
    {
      forall i: nat | i < |dss[b]|
        ensures blocks[b].insts[i] == done[b].insts[i]
      {
        OwnGather(dss, 0, b, i);
      }
      assert blocks[b].insts == done[b].insts;
    }
  }
}
