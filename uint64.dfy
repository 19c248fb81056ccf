/**
  Unsigned 64-bit words, and the two halves of the 128-bit product that the
  shuffle forms with `(our_uint128)(n - j) * (our_uint128)r`.
 */
module Uint64 {

  const TWO64: int := 0x1_0000_0000_0000_0000

  /** `uint64_t`: every value from 0 to 2^64 - 1. */
  type u64 = x: int | 0 <= x < TWO64

  /** Multiplying a factor of at least one keeps a non-negative number from shrinking. */
  lemma MulAtLeast(a: int, d: int)
    requires 0 <= a && 1 <= d
    ensures a <= a * d
  {
    assert a * d == a + a * (d - 1);
  }

  /** Multiplying by a non-negative factor keeps a weak order. */
  lemma MulMonotone(a: int, b: int, c: int)
    requires a <= b && 0 <= c
    ensures a * c <= b * c
  {
    assert b * c - a * c == (b - a) * c;
  }

  /** Multiplying by a positive factor keeps a strict order. */
  lemma MulStrictlyBelow(a: int, b: int, c: int)
    requires a > 0 && b < c
    ensures a * b < a * c
  {
    assert a * c - a * b == a * (c - b);
  }

  /** A product with a word, shifted right by 64 bits, stays below the other factor. */
  lemma HighHalfBelow(a: u64, b: u64)
    ensures (a * b) / TWO64 <= a
    ensures 0 < a ==> (a * b) / TWO64 < a
  {
    if a > 0 {
      MulStrictlyBelow(a, b, TWO64);
    }
  }

  /** The high half `(uint64_t)(x >> 64)` of the product of `a` and `b`. */
  function MulHi(a: u64, b: u64): (h: u64)
    ensures h <= a
    ensures 0 < a ==> h < a
  {
    HighHalfBelow(a, b);
    (a * b) / TWO64
  }

  /** The low half `(uint64_t)x` of the product of `a` and `b`. */
  function MulLo(a: u64, b: u64): (l: u64)
    ensures MulHi(a, b) * TWO64 + l == a * b
  {
    (a * b) % TWO64
  }

  /** Unsigned negation `-x`, which wraps around modulo 2^64. */
  function Neg(x: u64): (y: u64)
    ensures (x + y) % TWO64 == 0
  {
    (TWO64 - x) % TWO64
  }
}
