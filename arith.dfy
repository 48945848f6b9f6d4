/**
 * Facts about powers of two, multiplication, division and remainder that the
 * bit-field model needs.  Each is small so that the solver never has to find
 * a non-linear argument on its own.
 */
module Arith {

  function Pow2(k: nat): (p: nat)
    ensures p >= 1
  {
    if k == 0 then 1 else 2 * Pow2(k - 1)
  }

  lemma {:induction false} Pow2Add(a: nat, b: nat)
    ensures Pow2(a + b) == Pow2(a) * Pow2(b)
  {
    if a > 0 {
      Pow2Add(a - 1, b);
      MulAssoc(2, Pow2(a - 1), Pow2(b));
    }
  }

  lemma {:induction false} Pow2Monotone(a: nat, b: nat)
    requires a <= b
    ensures Pow2(a) <= Pow2(b)
  {
    if a < b {
      Pow2Monotone(a, b - 1);
    }
  }

  lemma Pow2Word()
    ensures Pow2(8) == 0x100 && Pow2(16) == 0x1_0000 && Pow2(24) == 0x100_0000
    ensures Pow2(32) == 0x1_0000_0000
  {
    assert Pow2(8) == 0x100;
    assert Pow2(16) == 0x1_0000 by { Pow2Add(8, 8); }
    assert Pow2(24) == 0x100_0000 by { Pow2Add(16, 8); }
    assert Pow2(32) == 0x1_0000_0000 by { Pow2Add(24, 8); }
  }

  lemma Pow2Small()
    ensures Pow2(1) == 2 && Pow2(2) == 4 && Pow2(6) == 64 && Pow2(7) == 128 && Pow2(8) == 256
  {
    assert Pow2(2) == 4;
    assert Pow2(6) == 64;
    assert Pow2(8) == 256;
  }

  lemma MulLeft(a: int, b: int, d: int)
    ensures a * d - b * d == (a - b) * d
  {
  }

  lemma MulAtLeastOne(a: int, d: int)
    requires a >= 1 && d > 0
    ensures a * d >= d
  {
  }

  lemma MulDistrib(a: int, b: int, c: int)
    ensures (a + b) * c == a * c + b * c
  {
  }

  lemma MulAssoc(a: int, b: int, c: int)
    ensures a * (b * c) == (a * b) * c && a * b == b * a
  {
  }

  lemma MulLe(a: int, b: int, c: int)
    requires a <= b && c >= 0
    ensures a * c <= b * c
  {
  }

  /** Quotient and remainder are determined by x == q * d + r, 0 <= r < d. */
  lemma DivModUnique(x: int, d: int, q: int, r: int)
    requires d > 0 && 0 <= r < d && x == q * d + r
    ensures x / d == q && x % d == r
  {
    var q', r' := x / d, x % d;
    MulLeft(q', q, d);
    if q' > q {
      MulAtLeastOne(q' - q, d);
    } else if q > q' {
      MulAtLeastOne(q - q', d);
      MulLeft(q, q', d);
    }
  }

  /** e * p + b < p * q when e < q and b < p. */
  lemma MixedBound(e: int, b: int, p: int, q: int)
    requires 0 <= e < q && 0 <= b < p
    ensures 0 <= e * p + b < p * q
  {
    MulLe(e, q - 1, p);
    MulLeft(q, 1, p);
    MulAssoc(p, q, 1);
    MulLe(0, e, p);
  }

  /** x split at p and then at p * q. */
  lemma SplitTwice(x: int, p: nat, q: nat)
    requires p > 0 && q > 0
    ensures x == (x / p / q) * (p * q) + ((x / p) % q) * p + x % p
    ensures 0 <= ((x / p) % q) * p + x % p < p * q
  {
    var a := x / p;
    var c, e := a / q, a % q;
    assert x == a * p + x % p;
    assert a == c * q + e;
    MulDistrib(c * q, e, p);
    MulAssoc(c, q, p);
    MulAssoc(q, p, 1);
    MixedBound(e, x % p, p, q);
  }

  lemma DivDiv(x: int, p: nat, q: nat)
    requires p > 0 && q > 0
    ensures x / p / q == x / (p * q)
  {
    SplitTwice(x, p, q);
    DivModUnique(x, p * q, x / p / q, ((x / p) % q) * p + x % p);
  }

  lemma ModMul(x: int, p: nat, q: nat)
    requires p > 0 && q > 0
    ensures (x % (p * q)) % p == x % p
    ensures (x / p) % q == (x % (p * q)) / p
  {
    var e, b := (x / p) % q, x % p;
    SplitTwice(x, p, q);
    DivModUnique(x, p * q, x / p / q, e * p + b);
    DivModUnique(e * p + b, p, e, b);
  }

  /** A number below p * q has a quotient by p below q. */
  lemma DivBelow(x: nat, p: nat, q: nat)
    requires p > 0 && q > 0 && x < p * q
    ensures x / p < q
  {
    if x / p >= q {
      MulLe(q, x / p, p);
      MulAssoc(q, p, 1);
    }
  }
  /** The quotient of a natural number by a positive one is natural. */
  lemma DivNonneg(x: int, d: int)
    requires x >= 0 && d > 0
    ensures x / d >= 0
  {
    if x / d < 0 {
      MulLe(x / d, -1, d);
    }
  }
  /** Euclid's division, with the product written quotient first. */
  lemma DivMod(x: int, d: int)
    requires d > 0
    ensures x == (x / d) * d + x % d
  {
  }
  /** The remainder modulo p * q is the remainder modulo p plus p times the
      next digit. */
  lemma ModSplit(y: int, p: nat, q: nat)
    requires p > 0 && q > 0
    ensures y % (p * q) == y % p + p * ((y / p) % q)
  {
    var r := y % (p * q);
    ModMul(y, p, q);
    DivMod(r, p);
    MulAssoc(r / p, p, 1);
  }
}
