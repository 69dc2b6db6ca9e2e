/** The primitives of the bitcode stream: little-endian numbers of a fixed width, strings and
    counted lists (core/bitcode_writer.cpp:25-38, core/bitcode_reader.cpp:26-55). */
module Bytes {
  import opened Arith

  type Byte = x: int | 0 <= x < 256
  type Name = seq<Byte>

  /** What reading yields: the value and the offset after it, a fatal error, or undefined
      behaviour. */
  datatype Parsed<+T> = Fatal | Wild | Got(value: T, next: nat) {
    predicate IsFailure() { !Got? }

    function PropagateFailure<U>(): Parsed<U>
      requires IsFailure()
    {
      if Fatal? then Fatal else Wild
    }

    function Extract(): (T, nat)
      requires !IsFailure()
    {
      (value, next)
    }
  }

  /** The stream holds s at an offset. */
  ghost predicate At(buf: seq<Byte>, off: nat, s: seq<Byte>) {
    off + |s| <= |buf| && buf[off..off + |s|] == s
  }

  lemma AtSplit(buf: seq<Byte>, off: nat, a: seq<Byte>, b: seq<Byte>)
    ensures At(buf, off, a + b) <==> At(buf, off, a) && At(buf, off + |a|, b)
  {
    if off + |a| + |b| <= |buf| {
      var s := buf[off..off + |a| + |b|];
      assert s[..|a|] == buf[off..off + |a|] && s[|a|..] == buf[off + |a|..off + |a| + |b|];
      assert (a + b)[..|a|] == a && (a + b)[|a|..] == b;
      assert s == s[..|a|] + s[|a|..];
    }
  }

  lemma AtSplits(buf: seq<Byte>)
    ensures forall off: nat, a: seq<Byte>, b: seq<Byte> {:trigger At(buf, off, a + b)} ::
              At(buf, off, a + b) <==> At(buf, off, a) && At(buf, off + |a|, b)
  {
    forall off: nat, a: seq<Byte>, b: seq<Byte>
      ensures At(buf, off, a + b) <==> At(buf, off, a) && At(buf, off + |a|, b)
    {
      AtSplit(buf, off, a, b);
    }
  }

  // Numbers

  function Width(n: nat): (w: nat)
    ensures w >= 1
  {
    if n == 0 then 1 else 256 * Width(n - 1)
  }

  /** The low n bytes of v, the lowest first: conversion to a narrower type drops the rest. */
  function Emit(n: nat, v: nat): (s: seq<Byte>)
    ensures |s| == n
  {
    if n == 0 then [] else [v % 256] + Emit(n - 1, v / 256)
  }

  function Number(s: seq<Byte>): (v: nat)
    ensures v < Width(|s|)
  {
    if s == [] then 0 else s[0] + 256 * Number(s[1..])
  }

  function ReadData(buf: seq<Byte>, off: nat, n: nat): (r: Parsed<nat>)
    ensures r.Got? ==> r.value < Width(n) && r.next == off + n
  {
    if off + n > |buf| then Fatal else Got(Number(buf[off..off + n]), off + n)
  }

  /** A number survives exactly when it fits the width it is written with. */
  lemma {:induction false} NumberOfEmit(n: nat, v: nat)
    ensures v < Width(n) ==> Number(Emit(n, v)) == v
    ensures Number(Emit(n, v)) == v ==> v < Width(n)
  {
    if n > 0 {
      NumberOfEmit(n - 1, v / 256);
      assert Emit(n, v)[1..] == Emit(n - 1, v / 256);
      if v < Width(n) {
        assert v / 256 < Width(n - 1);
      }
    }
  }

  lemma DivDiv(v: nat, w: nat)
    requires w > 0
    ensures v / (256 * w) == (v / 256) / w
  {
    var q, r := (v / 256) / w, (v / 256) % w;
    assert v / 256 == w * q + r;
    assert v == 256 * (v / 256) + v % 256;
    assert 256 * (w * q + r) == (256 * w) * q + 256 * r;
    DivUnique(256 * w, q, 256 * r + v % 256, v);
  }

  /** Byte i of a written number is its ith digit to the base 256, the lowest first. */
  lemma {:induction false} EmitAt(n: nat, v: nat, i: nat)
    requires i < n
    ensures Emit(n, v)[i] == (v / Width(i)) % 256
  {
    if i > 0 {
      EmitAt(n - 1, v / 256, i - 1);
      DivDiv(v, Width(i - 1));
    }
  }

  /** And the bytes that are read are the digits of the number. */
  lemma {:induction false} NumberAt(s: seq<Byte>, i: nat)
    requires i < |s|
    ensures (Number(s) / Width(i)) % 256 == s[i]
  {
    assert Number(s) / 256 == Number(s[1..]);
    if i > 0 {
      NumberAt(s[1..], i - 1);
      DivDiv(Number(s), Width(i - 1));
    }
  }

  lemma ReadEmitted(buf: seq<Byte>, off: nat, n: nat, v: nat)
    requires At(buf, off, Emit(n, v)) && v < Width(n)
    ensures ReadData(buf, off, n) == Got(v, off + n)
  {
    NumberOfEmit(n, v);
  }

  /** The bit pattern of a signed number of n bytes, and back. */
  function Unsigned(n: nat, v: int): (u: nat) {
    v % Width(n)
  }

  function Signed(n: nat, u: nat): (v: int) {
    if 2 * u >= Width(n) then u - Width(n) else u
  }

  predicate InRange(n: nat, v: int) {
    0 <= 2 * v + Width(n) && 2 * v < Width(n)
  }

  function EmitInt(n: nat, v: int): (s: seq<Byte>)
    ensures |s| == n
  {
    Emit(n, Unsigned(n, v))
  }

  function ReadInt(buf: seq<Byte>, off: nat, n: nat): (r: Parsed<int>)
    ensures r.Got? ==> InRange(n, r.value) && r.next == off + n
  {
    var (u, o) :- ReadData(buf, off, n);
    Got(Signed(n, u), o)
  }

  lemma SignedUnsigned(n: nat, v: int)
    requires InRange(n, v)
    ensures Unsigned(n, v) < Width(n) && Signed(n, Unsigned(n, v)) == v
  {
    var w := Width(n);
    if v < 0 {
      ModUnique(w, -1, v + w, v);
    } else {
      ModUnique(w, 0, v, v);
    }
  }

  lemma ReadEmittedInt(buf: seq<Byte>, off: nat, n: nat, v: int)
    requires At(buf, off, EmitInt(n, v)) && InRange(n, v)
    ensures ReadInt(buf, off, n) == Got(v, off + n)
  {
    SignedUnsigned(n, v);
    ReadEmitted(buf, off, n, Unsigned(n, v));
  }

  // Enumerators of one byte, and truth values

  function ReadByte(buf: seq<Byte>, off: nat): (r: Parsed<Byte>) {
    var (b, o) :- ReadData(buf, off, 1);
    ByteWidth();
    Got(b, o)
  }

  function ReadBool(buf: seq<Byte>, off: nat): (r: Parsed<bool>) {
    var (b, o) :- ReadData(buf, off, 1);
    Got(b != 0, o)
  }

  function EmitBool(b: bool): (s: seq<Byte>) {
    Emit(1, if b then 1 else 0)
  }

  lemma ByteWidth()
    ensures Width(1) == 256
  {
  }

  lemma ReadEmittedByte(buf: seq<Byte>, off: nat, b: Byte)
    requires At(buf, off, Emit(1, b))
    ensures ReadByte(buf, off) == Got(b, off + 1)
  {
    ReadEmitted(buf, off, 1, b);
  }

  lemma ReadEmittedBool(buf: seq<Byte>, off: nat, b: bool)
    requires At(buf, off, EmitBool(b))
    ensures ReadBool(buf, off) == Got(b, off + 1)
  {
    ReadEmitted(buf, off, 1, if b then 1 else 0);
  }

  // Strings

  predicate FitsName(s: Name) {
    |s| < Width(4)
  }

  function EmitName(s: Name): (out: seq<Byte>) {
    Emit(4, |s|) + s
  }

  function ReadString(buf: seq<Byte>, off: nat): (r: Parsed<Name>)
    ensures r.Got? ==> FitsName(r.value)
  {
    var (size, o) :- ReadData(buf, off, 4);
    if o + size > |buf| then Fatal else Got(buf[o..o + size], o + size)
  }

  lemma ReadEmittedName(buf: seq<Byte>, off: nat, s: Name)
    requires At(buf, off, EmitName(s)) && FitsName(s)
    ensures ReadString(buf, off) == Got(s, off + |EmitName(s)|)
  {
    AtSplits(buf);
    ReadEmitted(buf, off, 4, |s|);
  }

  // Lists

  function EmitAll<T>(xs: seq<T>, write: T -> seq<Byte>): (s: seq<Byte>) {
    if xs == [] then [] else write(xs[0]) + EmitAll(xs[1..], write)
  }

  function ReadMany<T>(buf: seq<Byte>, off: nat, n: nat, read: (seq<Byte>, nat) -> Parsed<T>): (r: Parsed<seq<T>>)
    ensures r.Got? ==> |r.value| == n
    decreases n
  {
    if n == 0 then Got([], off)
    else
      var (x, o) :- read(buf, off);
      var (xs, end) :- ReadMany(buf, o, n - 1, read);
      Got([x] + xs, end)
  }

  /** Whatever is written for x is read back as x. */
  ghost predicate Inverts<T>(buf: seq<Byte>, read: (seq<Byte>, nat) -> Parsed<T>, write: T -> seq<Byte>, x: T) {
    forall off: nat :: At(buf, off, write(x)) ==> read(buf, off) == Got(x, off + |write(x)|)
  }

  lemma {:induction false} ReadManyEmitted<T>(buf: seq<Byte>, off: nat, xs: seq<T>,
                                              read: (seq<Byte>, nat) -> Parsed<T>, write: T -> seq<Byte>)
    requires At(buf, off, EmitAll(xs, write))
    requires forall i :: 0 <= i < |xs| ==> Inverts(buf, read, write, xs[i])
    ensures ReadMany(buf, off, |xs|, read) == Got(xs, off + |EmitAll(xs, write)|)
    decreases |xs|
  {
    hide At;
    if xs != [] {
      AtSplit(buf, off, write(xs[0]), EmitAll(xs[1..], write));
      assert Inverts(buf, read, write, xs[0]);
      forall i | 0 <= i < |xs[1..]|
        ensures Inverts(buf, read, write, xs[1..][i])
      {
        assert xs[1..][i] == xs[i + 1];
      }
      ReadManyEmitted(buf, off + |write(xs[0])|, xs[1..], read, write);
      assert xs == [xs[0]] + xs[1..];
    }
  }

  /** What holds of every element a reader yields holds of every element of a list it yields. */
  lemma {:induction false} ReadManyHolds<T>(buf: seq<Byte>, off: nat, n: nat, read: (seq<Byte>, nat) -> Parsed<T>,
                                            P: T -> bool)
    requires forall o: nat :: read(buf, o).Got? ==> P(read(buf, o).value)
    requires ReadMany(buf, off, n, read).Got?
    ensures forall i :: 0 <= i < n ==> P(ReadMany(buf, off, n, read).value[i])
    decreases n
  {
    if n > 0 {
      var first := read(buf, off);
      ReadManyHolds(buf, first.next, n - 1, read, P);
    }
  }

  /** A list preceded by its length, a number of c bytes. */
  function EmitList<T>(c: nat, xs: seq<T>, write: T -> seq<Byte>): (s: seq<Byte>) {
    Emit(c, |xs|) + EmitAll(xs, write)
  }

  function ReadList<T>(buf: seq<Byte>, off: nat, c: nat, read: (seq<Byte>, nat) -> Parsed<T>): (r: Parsed<seq<T>>)
    ensures r.Got? ==> |r.value| < Width(c)
  {
    var (n, o) :- ReadData(buf, off, c);
    ReadMany(buf, o, n, read)
  }

  lemma ListRoundTrip<T>(buf: seq<Byte>, off: nat, c: nat, xs: seq<T>,
                         read: (seq<Byte>, nat) -> Parsed<T>, write: T -> seq<Byte>)
    requires At(buf, off, EmitList(c, xs, write)) && |xs| < Width(c)
    requires forall i :: 0 <= i < |xs| ==> Inverts(buf, read, write, xs[i])
    ensures ReadList(buf, off, c, read) == Got(xs, off + |EmitList(c, xs, write)|)
  {
    hide At, Inverts, ReadMany, EmitAll, ReadData, Emit;
    AtSplit(buf, off, Emit(c, |xs|), EmitAll(xs, write));
    ReadEmitted(buf, off, c, |xs|);
    ReadManyEmitted(buf, off + c, xs, read, write);
  }

  lemma ListHolds<T>(buf: seq<Byte>, off: nat, c: nat, read: (seq<Byte>, nat) -> Parsed<T>, P: T -> bool)
    requires forall o: nat :: read(buf, o).Got? ==> P(read(buf, o).value)
    requires ReadList(buf, off, c, read).Got?
    ensures forall i :: 0 <= i < |ReadList(buf, off, c, read).value| ==> P(ReadList(buf, off, c, read).value[i])
  {
    var n := ReadData(buf, off, c);
    ReadManyHolds(buf, n.next, n.value, read, P);
  }

  // Sequences without a length: one element for every key that is already known

  function Join(pieces: seq<seq<Byte>>): (s: seq<Byte>) {
    if pieces == [] then [] else pieces[0] + Join(pieces[1..])
  }

  function ReadEach<K, T>(buf: seq<Byte>, off: nat, keys: seq<K>,
                          read: (K, seq<Byte>, nat) -> Parsed<T>): (r: Parsed<seq<T>>)
    ensures r.Got? ==> |r.value| == |keys|
    decreases |keys|
  {
    if keys == [] then Got([], off) else
    var (x, o) :- read(keys[0], buf, off);
    var (xs, end) :- ReadEach(buf, o, keys[1..], read);
    Got([x] + xs, end)
  }

  /** With key k, the piece s is read as x. */
  ghost predicate Reads<K, T>(buf: seq<Byte>, read: (K, seq<Byte>, nat) -> Parsed<T>, k: K, s: seq<Byte>, x: T) {
    forall off: nat :: At(buf, off, s) ==> read(k, buf, off) == Got(x, off + |s|)
  }

  lemma {:induction false} ReadEachJoined<K, T>(buf: seq<Byte>, off: nat, keys: seq<K>, pieces: seq<seq<Byte>>,
                                                xs: seq<T>,
                                                read: (K, seq<Byte>, nat) -> Parsed<T>)
    requires |keys| == |pieces| == |xs| && At(buf, off, Join(pieces))
    requires forall i :: 0 <= i < |xs| ==> Reads(buf, read, keys[i], pieces[i], xs[i])
    ensures ReadEach(buf, off, keys, read) == Got(xs, off + |Join(pieces)|)
    decreases |xs|
  {
    hide At;
    if xs != [] {
      AtSplit(buf, off, pieces[0], Join(pieces[1..]));
      assert Reads(buf, read, keys[0], pieces[0], xs[0]);
      forall i | 0 <= i < |xs[1..]|
        ensures Reads(buf, read, keys[1..][i], pieces[1..][i], xs[1..][i])
      {
        assert Reads(buf, read, keys[i + 1], pieces[i + 1], xs[i + 1]);
      }
      ReadEachJoined(buf, off + |pieces[0]|, keys[1..], pieces[1..], xs[1..], read);
      assert xs == [xs[0]] + xs[1..];
    }
  }

  /** Every element was read somewhere with its key. */
  lemma {:induction false} ReadEachFrom<K, T>(buf: seq<Byte>, off: nat, keys: seq<K>,
                                              read: (K, seq<Byte>, nat) -> Parsed<T>, i: nat)
    returns (o: nat)
    requires ReadEach(buf, off, keys, read).Got? && i < |keys|
    ensures read(keys[i], buf, o).Got? && read(keys[i], buf, o).value == ReadEach(buf, off, keys, read).value[i]
    decreases i
  {
    var first := read(keys[0], buf, off);
    if i == 0 {
      o := off;
    } else {
      o := ReadEachFrom(buf, first.next, keys[1..], read, i - 1);
    }
  }
}
