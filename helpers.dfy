/**
 * Bit-field helpers over a 32-bit unsigned word (src/Helpers.h).
 *
 * A word is an integer in [0, 2^32).  A field is n contiguous bits starting
 * at bit 8*byte + bit, least significant bit first.  The source's bitwise
 * operations are stated by their arithmetic meaning: `x >> k` is x / 2^k,
 * `x & (2^n - 1)` is x % 2^n, `1U << i` is 2^i, and setting a bit that is
 * known to be clear adds its weight.
 */
module Helpers {
  import opened Arith

  const WORD_BITS: nat := 32
  const WORD_RANGE: nat := 0x1_0000_0000

  /** An unsigned 32-bit value. */
  type U32 = x: int | 0 <= x < 0x1_0000_0000

  /** `static_cast<uint32_t>(x)` of a signed value: two's complement, that
      is, x modulo 2^32. */
  function ToU32(x: int): U32
  {
    x % WORD_RANGE
  }

  /** What the source asserts of every field: byte < 4 and, in unsigned
      arithmetic, 8*byte + bit + n - 1 < 32.  An empty field at offset 0 makes
      that expression wrap to 2^32 - 1, so it is rejected too. */
  predicate FieldInWord(byte: nat, bit: nat, n: nat)
  {
    byte < 4 && 1 <= 8 * byte + bit + n <= WORD_BITS
  }

  /** Two fields that share no bit. */
  predicate Disjoint(byte1: nat, bit1: nat, n1: nat, byte2: nat, bit2: nat, n2: nat)
  {
    8 * byte1 + bit1 + n1 <= 8 * byte2 + bit2 || 8 * byte2 + bit2 + n2 <= 8 * byte1 + bit1
  }

  /** The value of the n-bit field of `src` at offset 8*byte + bit: an
      unsigned value below 2^n, never sign-extended. */
  function FieldValue(src: int, byte: nat, bit: nat, n: nat): (v: nat)
    requires FieldInWord(byte, bit, n)
    ensures v < Pow2(n)
  {
    (src / Pow2(8 * byte + bit)) % Pow2(n)
  }

  /** `target` with its n-bit field at offset 8*byte + bit replaced by the
      low n bits of `value`: the bits above the field, the new field and the
      bits below the field.  The result is again a 32-bit word. */
  function WithField(target: U32, value: nat, byte: nat, bit: nat, n: nat): (t: U32)
    requires FieldInWord(byte, bit, n)
  {
    var off := 8 * byte + bit;
    var w := Assemble(target / Pow2(off + n), value % Pow2(n), target % Pow2(off), off, n);
    assert 0 <= w < WORD_RANGE by {
      Pow2Word();
      WithFieldBelow(target, value, off, n, WORD_BITS);
    }
    w
  }

  /** The word whose bits above offset off + n are h, whose n bits at offset
      off are f and whose bits below off are l. */
  function Assemble(h: int, f: int, l: int, off: nat, n: nat): int
  {
    h * Pow2(off + n) + f * Pow2(off) + l
  }

  /** The range check of `enum2type`: the field value through `cast` when it
      lies in [lower, upper], the enumeration's INVALID sentinel otherwise. */
  function EnumField<T>(data: int, byte: nat, bit: nat, n: nat, lower: nat, upper: nat,
                        cast: nat -> T, invalid: T): T
    requires FieldInWord(byte, bit, n)
  {
    var v := FieldValue(data, byte, bit, n);
    if lower <= v <= upper then cast(v) else invalid
  }

  // ---------------------------------------------------------------------------
  // The loops of the source.

  /** The mask of the n low bits, one bit at a time: `mask |= 1U << i` adds
      2^i because bit i of a mask of the i low bits is clear. */
  method BuildMask(n: nat) returns (mask: U32)
    requires n <= WORD_BITS
    ensures mask == Pow2(n) - 1
  {
    mask := 0;
    for i := 0 to n
      invariant mask == Pow2(i) - 1
    {
      Pow2Monotone(i + 1, WORD_BITS);
      Pow2Word();
      mask := mask + Pow2(i);
    }
  }

  /** `bits2type`: shift the field down and keep its n low bits (`& mask` is
      the remainder modulo mask + 1 = 2^n). */
  method Bits2Type(src: U32, byte: nat, bit: nat, n: nat) returns (r: U32)
    requires FieldInWord(byte, bit, n)
    ensures r == FieldValue(src, byte, bit, n)
    ensures r < Pow2(n)
  {
    var off := bit + byte * 8;
    var mask := BuildMask(n);
    r := (src / Pow2(off)) % (mask as int + 1);
  }

  /** `setBits`: wipe the field of `target` and write the low n bits of
      `value` into it.  The source updates `target` through a reference; here
      the new target is returned. */
  method SetBits(target: U32, value: U32, byte: nat, bit: nat, n: nat) returns (t: U32)
    requires FieldInWord(byte, bit, n)
    ensures t == WithField(target, value, byte, bit, n)
    ensures FieldValue(t, byte, bit, n) == value % Pow2(n)
    ensures t % Pow2(8 * byte + bit) == target % Pow2(8 * byte + bit)
    ensures t / Pow2(8 * byte + bit + n) == target / Pow2(8 * byte + bit + n)
  {
    var off := bit + byte * 8;
    var mask := BuildMask(n);
    var p := Pow2(off);
    ghost var q, pq := Pow2(n), Pow2(off + n);
    assert off == 8 * byte + bit && mask as int + 1 == q;
    // target &= ~(mask << bit)
    var wiped: int := target - ((target / p) % (mask as int + 1)) * p;
    // target |= (value & mask) << bit
    var written: int := wiped + (value % (mask as int + 1)) * p;
    assert written == WithField(target, value, byte, bit, n) by {
      Decompose(target, byte, bit, n);
      assert wiped == (target / pq) * pq + target % p;
    }
    t := written;
    GetAfterSet(target, value, byte, bit, n);
    WithFieldKeepsOutside(target, value, byte, bit, n);
  }

  /** `enum2type`: read the field with `bits2type` and range-check it. */
  method Enum2Type<T>(data: U32, byte: nat, bit: nat, n: nat, lower: nat, upper: nat,
                      cast: nat -> T, invalid: T) returns (r: T)
    requires FieldInWord(byte, bit, n)
    ensures r == EnumField(data, byte, bit, n, lower, upper, cast, invalid)
  {
    var v := Bits2Type(data, byte, bit, n);
    r := invalid;
    if lower <= v && v <= upper {
      r := cast(v);
    }
  }

  // ---------------------------------------------------------------------------
  // Properties of fields.

  /** x / 2^off / 2^n is x / 2^(off + n), as the decomposition needs it. */
  lemma {:induction false} DivPow2(x: nat, a: nat, b: nat)
    ensures x / Pow2(a) / Pow2(b) == x / Pow2(a + b)
  {
    Pow2Add(a, b);
    DivDiv(x, Pow2(a), Pow2(b));
  }

  /** A word is its bits above the field, the field and its bits below. */
  lemma {:induction false} Decompose(x: nat, byte: nat, bit: nat, n: nat)
    requires FieldInWord(byte, bit, n)
    ensures var off := 8 * byte + bit;
      x == Assemble(x / Pow2(off + n), FieldValue(x, byte, bit, n), x % Pow2(off), off, n)
  {
    var off := 8 * byte + bit;
    SplitTwice(x, Pow2(off), Pow2(n));
    Pow2Add(off, n);
    DivPow2(x, off, n);
  }

  /** Reading back the three parts of a word assembled from them. */
  lemma {:induction false} Compose(h: int, f: int, l: int, byte: nat, bit: nat, n: nat)
    requires FieldInWord(byte, bit, n)
    requires 0 <= f < Pow2(n) && 0 <= l < Pow2(8 * byte + bit)
    ensures var off := 8 * byte + bit;
      var x := Assemble(h, f, l, off, n);
      FieldValue(x, byte, bit, n) == f && x % Pow2(off) == l && x / Pow2(off + n) == h
  {
    ComposeAt(h, f, l, 8 * byte + bit, n);
  }

  lemma {:induction false} ComposeAt(h: int, f: int, l: int, off: nat, n: nat)
    requires 0 <= f < Pow2(n) && 0 <= l < Pow2(off)
    ensures var x := Assemble(h, f, l, off, n);
      (x / Pow2(off)) % Pow2(n) == f && x % Pow2(off) == l && x / Pow2(off + n) == h
  {
    var p, q, pq := Pow2(off), Pow2(n), Pow2(off + n);
    Pow2Add(off, n);
    var x := h * pq + f * p + l;
    assert h * pq == (h * q) * p by { MulAssoc(h, q, p); MulAssoc(q, p, 1); }
    assert x == (h * q + f) * p + l by { MulDistrib(h * q, f, p); }
    DivModUnique(x, p, h * q + f, l);
    DivModUnique(h * q + f, q, h, f);
    DivDiv(x, p, q);
  }

  /** A write inside the low k bits keeps a word inside the low k bits. */
  lemma {:induction false} WithFieldBelow(target: nat, value: int, off: nat, n: nat, k: nat)
    requires off + n <= k && target < Pow2(k)
    ensures 0 <= Assemble(target / Pow2(off + n), value % Pow2(n), target % Pow2(off), off, n) < Pow2(k)
  {
    var p, q, pq, r := Pow2(off), Pow2(n), Pow2(off + n), Pow2(k - (off + n));
    assert Pow2(k) == pq * r by { Pow2Add(off + n, k - (off + n)); }
    assert pq == p * q by { Pow2Add(off, n); }
    var h := target / pq;
    var low := (value % q) * p + target % p;
    assert 0 <= low < pq by { MixedBound(value % q, target % p, p, q); }
    assert 0 <= h < r by { DivNonneg(target, pq); DivBelow(target, pq, r); }
    assert 0 <= h * pq <= r * pq - pq by { MulLe(h, r - 1, pq); MulLe(0, h, pq); MulLeft(r, 1, pq); }
    assert r * pq == pq * r by { MulAssoc(r, pq, 1); }
  }

  /** Get after set: the field reads back as the low n bits of the value. */
  lemma {:induction false} GetAfterSet(target: U32, value: nat, byte: nat, bit: nat, n: nat)
    requires FieldInWord(byte, bit, n)
    ensures FieldValue(WithField(target, value, byte, bit, n), byte, bit, n) == value % Pow2(n)
  {
    var off := 8 * byte + bit;
    Compose(target / Pow2(off + n), value % Pow2(n), target % Pow2(off), byte, bit, n);
  }

  /** A write changes no bit below the field and no bit above it. */
  lemma {:induction false} WithFieldKeepsOutside(target: U32, value: nat, byte: nat, bit: nat, n: nat)
    requires FieldInWord(byte, bit, n)
    ensures var t, off := WithField(target, value, byte, bit, n), 8 * byte + bit;
      t % Pow2(off) == target % Pow2(off) && t / Pow2(off + n) == target / Pow2(off + n)
  {
    var off := 8 * byte + bit;
    Compose(target / Pow2(off + n), value % Pow2(n), target % Pow2(off), byte, bit, n);
  }

  /** Two numbers that agree in their b low bits agree in their a low bits
      for every a <= b. */
  lemma {:induction false} LowBitsAgree(x: int, y: int, a: nat, b: nat)
    requires a <= b && x % Pow2(b) == y % Pow2(b)
    ensures x % Pow2(a) == y % Pow2(a)
  {
    assert Pow2(b) == Pow2(a) * Pow2(b - a) by { Pow2Add(a, b - a); }
    ModMul(x, Pow2(a), Pow2(b - a));
    ModMul(y, Pow2(a), Pow2(b - a));
  }

  /** A field that lies wholly below bit k depends only on x % 2^k. */
  lemma {:induction false} FieldBelowDependsOnLow(x: nat, y: nat, byte: nat, bit: nat, n: nat, k: nat)
    requires FieldInWord(byte, bit, n) && 8 * byte + bit + n <= k
    requires x % Pow2(k) == y % Pow2(k)
    ensures FieldValue(x, byte, bit, n) == FieldValue(y, byte, bit, n)
  {
    var off := 8 * byte + bit;
    var top := off + n;
    Pow2Add(off, n);
    Pow2Add(top, k - top);
    ModMul(x, Pow2(off), Pow2(n));
    ModMul(y, Pow2(off), Pow2(n));
    ModMul(x, Pow2(top), Pow2(k - top));
    ModMul(y, Pow2(top), Pow2(k - top));
  }

  /** A field that lies wholly at or above bit k depends only on x / 2^k. */
  lemma {:induction false} FieldAboveDependsOnHigh(x: nat, y: nat, byte: nat, bit: nat, n: nat, k: nat)
    requires FieldInWord(byte, bit, n) && k <= 8 * byte + bit
    requires x / Pow2(k) == y / Pow2(k)
    ensures FieldValue(x, byte, bit, n) == FieldValue(y, byte, bit, n)
  {
    var off := 8 * byte + bit;
    DivPow2(x, k, off - k);
    DivPow2(y, k, off - k);
  }

  /** Writing one field and reading a disjoint one gives the value from before
      the write. */
  lemma {:induction false} DisjointRead(target: U32, value: nat, byte: nat, bit: nat, n: nat,
                                        byte2: nat, bit2: nat, n2: nat)
    requires FieldInWord(byte, bit, n) && FieldInWord(byte2, bit2, n2)
    requires Disjoint(byte, bit, n, byte2, bit2, n2)
    ensures FieldValue(WithField(target, value, byte, bit, n), byte2, bit2, n2)
         == FieldValue(target, byte2, bit2, n2)
  {
    var t := WithField(target, value, byte, bit, n);
    WithFieldKeepsOutside(target, value, byte, bit, n);
    if 8 * byte2 + bit2 + n2 <= 8 * byte + bit {
      FieldBelowDependsOnLow(t, target, byte2, bit2, n2, 8 * byte + bit);
    } else {
      FieldAboveDependsOnHigh(t, target, byte2, bit2, n2, 8 * byte + bit + n);
    }
  }

  /** The last write to a field wins. */
  lemma {:induction false} LastWriteWins(target: U32, v1: nat, v2: nat, byte: nat, bit: nat, n: nat)
    requires FieldInWord(byte, bit, n)
    ensures WithField(WithField(target, v1, byte, bit, n), v2, byte, bit, n)
         == WithField(target, v2, byte, bit, n)
  {
    WithFieldKeepsOutside(target, v1, byte, bit, n);
  }

  /** Writing the same value twice is writing it once. */
  lemma {:induction false} SetBitsIdempotent(target: U32, value: nat, byte: nat, bit: nat, n: nat)
    requires FieldInWord(byte, bit, n)
    ensures WithField(WithField(target, value, byte, bit, n), value, byte, bit, n)
         == WithField(target, value, byte, bit, n)
  {
    LastWriteWins(target, value, value, byte, bit, n);
  }

  /** Writing back the value a field already holds changes nothing. */
  lemma {:induction false} WriteBackUnchanged(target: U32, byte: nat, bit: nat, n: nat)
    requires FieldInWord(byte, bit, n)
    ensures WithField(target, FieldValue(target, byte, bit, n), byte, bit, n) == target
  {
    var v := FieldValue(target, byte, bit, n);
    assert v % Pow2(n) == v by { DivModUnique(v, Pow2(n), 0, v); }
    Decompose(target, byte, bit, n);
  }

  /** A write inside the low k bits of a word below 2^k stays below 2^k. */
  lemma {:induction false} WithFieldStaysBelow(target: U32, value: nat, byte: nat, bit: nat, n: nat, k: nat)
    requires FieldInWord(byte, bit, n)
    requires 8 * byte + bit + n <= k && target < Pow2(k)
    ensures WithField(target, value, byte, bit, n) < Pow2(k)
  {
    var off := 8 * byte + bit;
    assert WithField(target, value, byte, bit, n)
        == Assemble(target / Pow2(off + n), value % Pow2(n), target % Pow2(off), off, n);
    WithFieldBelow(target, value, off, n, k);
  }

  /** Every field that starts at or above the top bit of a word reads 0. */
  lemma {:induction false} FieldAboveTop(x: nat, byte: nat, bit: nat, n: nat)
    requires FieldInWord(byte, bit, n) && x < Pow2(8 * byte + bit)
    ensures FieldValue(x, byte, bit, n) == 0
  {
    DivModUnique(x, Pow2(8 * byte + bit), 0, x);
  }

  /** An (n + m)-bit field is its n low bits plus 2^n times the m-bit field
      just above them. */
  lemma {:induction false} FieldConcat(x: nat, byte: nat, bit: nat, n: nat, byte2: nat, bit2: nat, m: nat)
    requires FieldInWord(byte, bit, n + m) && FieldInWord(byte, bit, n) && FieldInWord(byte2, bit2, m)
    requires 8 * byte2 + bit2 == 8 * byte + bit + n
    ensures FieldValue(x, byte, bit, n + m)
         == FieldValue(x, byte, bit, n) + Pow2(n) * FieldValue(x, byte2, bit2, m)
  {
    var off := 8 * byte + bit;
    var p, q := Pow2(n), Pow2(m);
    var y := x / Pow2(off);
    assert Pow2(n + m) == p * q by { Pow2Add(n, m); }
    assert FieldValue(x, byte2, bit2, m) == (y / p) % q by { DivPow2(x, off, n); }
    ModSplit(y, p, q);
  }

  /** The range check admits exactly the values in [lower, upper]. */
  lemma EnumFieldInRange<T>(data: int, byte: nat, bit: nat, n: nat, lower: nat, upper: nat,
                            cast: nat -> T, invalid: T)
    requires FieldInWord(byte, bit, n)
    requires forall k :: lower <= k <= upper ==> cast(k) != invalid
    ensures var v := FieldValue(data, byte, bit, n);
      && (EnumField(data, byte, bit, n, lower, upper, cast, invalid) != invalid <==> lower <= v <= upper)
      && (lower <= v <= upper ==> EnumField(data, byte, bit, n, lower, upper, cast, invalid) == cast(v))
  {
  }
}
