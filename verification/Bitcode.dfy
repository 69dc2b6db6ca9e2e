/** Saving a program and loading it again, and why functions that the verifier accepts can be
    saved: in the order of the blocks in the file, definitions come first. */
module Bitcode {
  import opened Bytes
  import opened BitcodeBody
  import opened BitcodeCode
  import opened BitcodeFunc
  import opened BitcodeInst
  import opened BitcodeNames
  import opened BitcodeProg
  import BitcodeReader
  import opened BitcodeTrip
  import opened BitcodeValue
  import BitcodeWriter
  import opened Cfg
  import opened Options

  /** Writing a program and reading the file yields the program, with the incoming values of its
      PHIs possibly in another order, exactly when everything fits. */
  method SaveAndLoad(p: Prog, isa: Isa) returns (r: Parsed<Prog>)
    requires FormedProg(p, isa) && KnownProg(p, isa)
    ensures (r.Got? && r.value == SettleProg(p, isa)) <==> FitsProg(p, isa)
  {
    hide FormedProg, KnownProg, FitsProg, WriteProg, ReadProg, SettleProg;
    var writer := new BitcodeWriter.Writer(isa);
    writer.Write(p);
    var reader := new BitcodeReader.Reader(isa, writer.os);
    r := reader.Read();
    RoundTrip(p, isa);
    if r.Got? && r.value == SettleProg(p, isa) {
      ReadableFits(p, isa, writer.os);
    }
  }

  // The order of the blocks

  /** A reverse post-order: it starts with the entry, and every other block has a predecessor
      that comes earlier, the one from which the traversal reached it. */
  ghost predicate Traversal(g: Graph, order: seq<nat>) {
    && Distinct(order) && order != [] && order[0] == 0
    && forall j: nat :: 0 < j < |order| ==> exists i: nat :: i < j && Edge(g, order[i], order[j])
  }

  lemma OnlyEntry(g: Graph)
    requires g.Valid()
    ensures RunTo(g, [0], 0)
  {
  }

  /** A run to a block that visits only blocks that come earlier. */
  lemma {:induction false} EarlierRun(g: Graph, order: seq<nat>, j: nat) returns (p: seq<nat>)
    requires g.Valid() && Traversal(g, order) && j < |order|
    ensures RunTo(g, p, order[j])
    ensures forall x :: x in p ==> x in order[..j + 1]
    decreases j
  {
    hide RunTo, Distinct;
    if j == 0 {
      p := [0];
      OnlyEntry(g);
    } else {
      var i: nat :| i < j && Edge(g, order[i], order[j]);
      var q := EarlierRun(g, order, i);
      RunExtends(g, q, order[i], order[j]);
      p := q + [order[j]];
      assert order[..i + 1] <= order[..j + 1];
      assert order[..j + 1][j] == order[j];
    }
  }

  lemma RunExtends(g: Graph, q: seq<nat>, a: nat, b: nat)
    requires g.Valid() && RunTo(g, q, a) && Edge(g, a, b)
    ensures RunTo(g, q + [b], b)
  {
    ConcatPath(g, q, [b]);
  }

  /** Dominators come first. */
  lemma DominatorsFirst(g: Graph, order: seq<nat>, c: nat, j: nat)
    requires g.Valid() && Traversal(g, order) && j < |order| && c < |order| && Dom(g, order[c], order[j])
    ensures c <= j
  {
    var p := EarlierRun(g, order, j);
    assert order[c] in p;
  }

  // Operands

  /** The results an operand field refers to. */
  function RefsOf(f: Field): (rs: set<Ref>) {
    match f
    case InstField(r) => if r.Some? then {r.value} else {}
    case InstList(rs) => set i | 0 <= i < |rs| && rs[i].Some? :: rs[i].value
    case ValueField(v) => if v.InstVal? && v.r.Some? then {v.r.value} else {}
    case BlockField(_) => {}
    case BlockList(_) => {}
    case FlagList(_) => {}
    case Scalar(_) => {}
    case OptScalar(_) => {}
  }

  /** r is a result of an instruction that dominates instruction i of block b. */
  ghost predicate Dominates(g: Graph, order: seq<nat>, bs: seq<Block>, isa: Isa, r: Ref, b: nat, i: nat)
    requires |order| == |bs| && b < |bs|
  {
    exists c: nat :: c < |bs| && DefinedAt(bs, isa, r, c) && if c == b then r.inst < i else Dom(g, order[c], order[b])
  }

  ghost predicate DefinedAt(bs: seq<Block>, isa: Isa, r: Ref, c: nat)
    requires c < |bs|
  {
    r.block == bs[c].name && r.inst < |bs[c].insts| && r.ret < Rets(bs[c].insts[r.inst], isa)
  }

  lemma {:induction false} InBlockHas(bl: Block, isa: Isa, r: Ref, i: nat)
    requires r.block == bl.name && r.inst < i <= |bl.insts| && r.ret < Rets(bl.insts[r.inst], isa)
    ensures r in ResultsIn(bl, isa, i)
  {
    if r.inst == i - 1 {
      assert Defs(bl.name, i - 1, Rets(bl.insts[i - 1], isa))[r.ret] == r;
    } else {
      InBlockHas(bl, isa, r, i - 1);
    }
  }

  lemma {:induction false} BlocksHave(bs: seq<Block>, isa: Isa, r: Ref, c: nat, b: nat)
    requires c < b <= |bs| && r in ResultsIn(bs[c], isa, |bs[c].insts|)
    ensures r in ResultsOf(bs, isa, b)
  {
    if c < b - 1 {
      BlocksHave(bs, isa, r, c, b - 1);
    }
  }

  lemma DominatingIsBefore(g: Graph, order: seq<nat>, bs: seq<Block>, isa: Isa, r: Ref, b: nat, i: nat)
    requires g.Valid() && Traversal(g, order) && |order| == |bs| && b < |bs| && i <= |bs[b].insts|
    requires Dominates(g, order, bs, isa, r, b, i)
    ensures r in Before(bs, isa, b, i)
  {
    hide Traversal, Dom, ResultsIn, ResultsOf;
    var c: nat :| c < |bs| && DefinedAt(bs, isa, r, c) && if c == b then r.inst < i else Dom(g, order[c], order[b]);
    if c == b {
      InBlockHas(bs[b], isa, r, i);
    } else {
      DominatorsFirst(g, order, c, b);
      InBlockHas(bs[c], isa, r, |bs[c].insts|);
      BlocksHave(bs, isa, r, c, b);
    }
  }

  lemma PrefixNumber(m: map<Ref, nat>, all: seq<Ref>, before: seq<Ref>, r: Ref)
    requires Numbers(m, all, 1) && before <= all && r in before
    ensures r in m && m[r] <= |before|
  {
    var k: nat :| k < |before| && before[k] == r;
    assert all[k] == r;
  }

  /** A result that dominates its use is numbered before it. */
  lemma DominatingIsEarlier(g: Graph, order: seq<nat>, bs: seq<Block>, isa: Isa, w: Numbering, r: Ref, b: nat, i: nat)
    requires g.Valid() && Traversal(g, order) && |order| == |bs| && b < |bs| && i <= |bs[b].insts|
    requires Numbers(w.insts, Results(bs, isa), 1) && Dominates(g, order, bs, isa, r, b, i)
    ensures r in w.insts && w.insts[r] <= |Before(bs, isa, b, i)|
  {
    hide *;
    DominatingIsBefore(g, order, bs, isa, r, b, i);
    BeforePrefix(bs, isa, b, i);
    PrefixNumber(w.insts, Results(bs, isa), Before(bs, isa, b, i), r);
  }

  /** So no operand of a function that the verifier accepts is in the way of saving it: a field
      that fits as far as its widths go also fits where it stands. */
  lemma DominatedFits(g: Graph, order: seq<nat>, bs: seq<Block>, isa: Isa, w: Numbering, f: Field, s: Shape, b: nat,
                      i: nat)
    requires g.Valid() && Traversal(g, order) && |order| == |bs| && b < |bs| && i <= |bs[b].insts|
    requires Numbers(w.insts, Results(bs, isa), 1) && Matches(f, s)
    requires forall r :: r in RefsOf(f) ==> Dominates(g, order, bs, isa, r, b, i)
    requires FitsField(f, s, w, |Results(bs, isa)|)
    ensures FitsField(f, s, w, |Before(bs, isa, b, i)|)
  {
    hide Dominates, Before, Results, Traversal;
    forall r | r in RefsOf(f)
      ensures r in w.insts && w.insts[r] <= |Before(bs, isa, b, i)|
    {
      DominatingIsEarlier(g, order, bs, isa, w, r, b, i);
    }
    if f.InstList? {
      forall j | 0 <= j < |f.rs|
        ensures FitsRef(f.rs[j], w, |Before(bs, isa, b, i)|)
      {
        assert f.rs[j].Some? ==> f.rs[j].value in RefsOf(f);
      }
    }
  }
}
