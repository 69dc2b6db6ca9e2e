/** Division with remainder. */
module Arith {

  lemma MulGrows(a: nat, k: nat)
    requires a > 0 && k > 0
    ensures a * k >= a
  {
  }

  lemma ModUnique(a: nat, q: int, r: nat, x: int)
    requires a > 0 && r < a && x == a * q + r
    ensures x % a == r
  {
    var p := x / a;
    assert a * q - a * p == a * (q - p) && a * p - a * q == a * (p - q);
    if q > p {
      MulGrows(a, q - p);
    } else if p > q {
      MulGrows(a, p - q);
    }
  }

  lemma DivUnique(a: nat, q: int, r: nat, x: int)
    requires a > 0 && r < a && x == a * q + r
    ensures x / a == q
  {
    ModUnique(a, q, r, x);
    assert a * q - a * (x / a) == a * (q - x / a);
  }

  lemma ModAdd(a: nat, x: nat)
    requires a > 0
    ensures (x + a) % a == x % a
  {
    assert x + a == a * (x / a + 1) + x % a;
    ModUnique(a, x / a + 1, x % a, x + a);
  }

  lemma MultipleMod(a: nat, k: int)
    requires a > 0
    ensures (a * k) % a == 0
  {
    ModUnique(a, k, 0, a * k);
  }

  lemma {:induction false} ModMultiple(a: nat, k: nat, x: nat)
    requires a > 0
    ensures (a * k + x) % a == x % a
  {
    if k > 0 {
      ModMultiple(a, k - 1, x);
      assert a * k + x == (a * (k - 1) + x) + a;
      ModAdd(a, a * (k - 1) + x);
    }
  }
}
