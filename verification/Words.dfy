/** Addresses as words of a fixed number of bits. */
module Words {
  import opened Arith

  function Pow2(n: nat): (p: nat)
    ensures p > 0
  {
    if n == 0 then 1 else 2 * Pow2(n - 1)
  }

  /** Bitwise or in two's complement. */
  function BitOr(x: int, y: nat): int
    decreases y
  {
    if y == 0 then x else 2 * BitOr(x / 2, y / 2) + (if x % 2 == 1 || y % 2 == 1 then 1 else 0)
  }

  /** Bit i of a number in two's complement. */
  predicate Bit(x: int, i: nat) {
    (x / Pow2(i)) % 2 == 1
  }

  /** A bit of the result is set iff it is set in one of the operands. */
  lemma {:induction false} OrBits(x: int, y: nat, i: nat)
    ensures Bit(BitOr(x, y), i) <==> Bit(x, i) || Bit(y, i)
    decreases i
  {
    hide Bit;
    if y == 0 {
      ZeroBits(i);
    } else if i > 0 {
      NextBit(x, i);
      NextBit(y, i);
      OrHalf(x, y);
      NextBit(BitOr(x, y), i);
      OrBits(x / 2, y / 2, i - 1);
    } else {
      OrHalf(x, y);
      LowBit(x);
      LowBit(y);
      LowBit(BitOr(x, y));
    }
  }

  lemma OrHalf(x: int, y: nat)
    requires y > 0
    ensures BitOr(x, y) / 2 == BitOr(x / 2, y / 2)
    ensures BitOr(x, y) % 2 == 1 <==> x % 2 == 1 || y % 2 == 1
  {
  }

  lemma LowBit(x: int)
    ensures Bit(x, 0) <==> x % 2 == 1
  {
    assert Pow2(0) == 1;
  }

  lemma ZeroBits(i: nat)
    ensures !Bit(0, i)
  {
    DivUnique(Pow2(i), 0, 0, 0);
  }

  lemma NextBit(x: int, i: nat)
    requires i > 0
    ensures Bit(x, i) <==> Bit(x / 2, i - 1)
  {
    var p := Pow2(i - 1);
    var q, r := (x / 2) / p, (x / 2) % p;
    assert x / 2 == p * q + r;
    assert x == 2 * (p * q + r) + x % 2;
    assert x == (2 * p) * q + (2 * r + x % 2);
    DivUnique(2 * p, q, 2 * r + x % 2, x);
  }

  /** Addresses are words of m bits. */
  function Word(m: nat, x: int): (w: nat)
    ensures w < Pow2(m)
  {
    x % Pow2(m)
  }

  /** Or-ing bits below the alignment into an address only changes the offset. */
  lemma {:induction false} OrShift(a: int, off: int, c: nat, k: nat)
    requires a % Pow2(k) == 0 && c < Pow2(k)
    ensures BitOr(a + off, c) == a + BitOr(off, c)
    decreases k
  {
    if c > 0 {
      var h := Pow2(k - 1);
      HalfMod(a, h);
      assert (a + off) / 2 == a / 2 + off / 2;
      OrShift(a / 2, off / 2, c / 2, k - 1);
    }
  }

  lemma HalfMod(a: int, h: nat)
    requires h > 0 && a % (2 * h) == 0
    ensures a % 2 == 0 && (a / 2) % h == 0
  {
    var q := a / (2 * h);
    assert a == 2 * h * q;
    assert a == 2 * (h * q);
    MultipleMod(h, q);
  }

  lemma {:induction false} OrRange(x: nat, y: nat, n: nat)
    requires x < Pow2(n) && y < Pow2(n)
    ensures 0 <= BitOr(x, y) < Pow2(n)
    decreases n
  {
    if y > 0 {
      OrRange(x / 2, y / 2, n - 1);
    }
  }

  lemma {:induction false} Pow2Add(m: nat, n: nat)
    ensures Pow2(m + n) == Pow2(m) * Pow2(n)
  {
    if m > 0 {
      Pow2Add(m - 1, n);
      assert Pow2(m + n) == 2 * (Pow2(m - 1) * Pow2(n));
    }
  }

  lemma AddMultiple(a: int, p: nat, q: int)
    requires p > 0 && a % p == 0
    ensures (a + p * q) % p == 0
  {
    assert a == p * (a / p);
    assert a + p * q == p * (a / p + q);
    MultipleMod(p, a / p + q);
  }

  lemma WordShift(m: nat, x: int, q: int)
    ensures Word(m, x + Pow2(m) * q) == Word(m, x)
  {
    var p := Pow2(m);
    assert x + p * q == p * (x / p + q) + x % p;
    ModUnique(p, x / p + q, x % p, x + p * q);
  }

  lemma WordSmall(m: nat, x: int)
    requires 0 <= x < Pow2(m)
    ensures Word(m, x) == x
  {
    ModUnique(Pow2(m), 0, x, x);
  }

  lemma SmallPower(k: nat, m: nat)
    requires k <= m
    ensures Pow2(k) <= Pow2(m)
  {
    Pow2Add(k, m - k);
    MulGrows(Pow2(k), Pow2(m - k));
  }

  lemma Assoc(p: int, d: int, n: int)
    ensures (p * d) * n == p * (d * n)
  {
  }

  /** Whole words keep the alignment. */
  lemma WordsAligned(k: nat, m: nat, a: int, n: int)
    requires k <= m && a % Pow2(k) == 0
    ensures (a + Pow2(m) * n) % Pow2(k) == 0
  {
    hide Pow2;
    Pow2Add(k, m - k);
    Assoc(Pow2(k), Pow2(m - k), n);
    AddMultiple(a, Pow2(k), Pow2(m - k) * n);
  }

  /** A word is the number it stands for, up to a multiple of the word size. */
  lemma WordIs(m: nat, x: int) returns (n: int)
    ensures Word(m, x) == x + Pow2(m) * n && Word(m, x) < Pow2(m)
  {
    n := -(x / Pow2(m));
  }

  /** The aligned or: the word A + off, or-ed with c below the alignment of A, is A + (off | c). */
  lemma AlignedOr(m: nat, a: nat, off: int, c: nat, k: nat)
    requires k <= m && a % Pow2(k) == 0 && c < Pow2(k)
    ensures BitOr(Word(m, a + off), c) == Word(m, a + BitOr(off, c))
  {
    hide Pow2, Word, BitOr;
    var n := WordIs(m, a + off);
    var b := a + Pow2(m) * n;
    WordsAligned(k, m, a, n);
    OrShift(b, off, c, k);
    SmallPower(k, m);
    OrRange(Word(m, a + off), c, m);
    WordSmall(m, b + BitOr(off, c));
    WordShift(m, a + BitOr(off, c), n);
  }

  lemma {:induction false} OrZero(y: nat)
    ensures BitOr(0, y) == y
  {
    if y > 0 {
      OrZero(y / 2);
    }
  }

  lemma {:induction false} OrCommutes(x: nat, y: nat)
    ensures BitOr(x, y) == BitOr(y, x)
    decreases x
  {
    if x == 0 {
      OrZero(y);
    } else if y == 0 {
      OrZero(x);
    } else {
      OrCommutes(x / 2, y / 2);
    }
  }

  lemma WordAdd(m: nat, x: int, y: int)
    ensures Word(m, Word(m, x) + y) == Word(m, x + y)
    ensures Word(m, y + Word(m, x)) == Word(m, x + y)
    ensures Word(m, y - Word(m, x)) == Word(m, y - x)
  {
    hide Pow2;
    var p, q := Pow2(m), x / Pow2(m);
    assert Word(m, x) == x + p * -q;
    WordShift(m, x + y, -q);
    WordShift(m, y - x, q);
    assert p * -q == -(p * q);
  }

  /** The same with the operands in either order. */
  lemma OrEither(m: nat, a: nat, off: int, c: nat, k: nat)
    requires k <= m && a % Pow2(k) == 0 && c < Pow2(k)
    ensures BitOr(Word(m, a + off), c) == Word(m, a + BitOr(off, c))
    ensures BitOr(c, Word(m, a + off)) == Word(m, a + BitOr(off, c))
  {
    hide Pow2, Word, BitOr;
    AlignedOr(m, a, off, c, k);
    OrCommutes(c, Word(m, a + off));
  }
}
