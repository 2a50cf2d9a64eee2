/**
 * Java's 32-bit two's-complement `int`. Addition on `int` in Java never
 * fails: the mathematical result is reduced modulo 2^32 into the range
 * [MIN, MAX]. `Wrap` is that reduction.
 */
module JavaInt {

  const MIN: int := -0x8000_0000
  const MAX: int := 0x7FFF_FFFF
  const MODULUS: int := 0x1_0000_0000

  predicate IsInt32(x: int) {
    MIN <= x <= MAX
  }

  /** The Java `int` that the mathematical value `x` is congruent to modulo 2^32. */
  function Wrap(x: int): (r: int)
    ensures IsInt32(r)
    ensures IsInt32(x) ==> r == x
    decreases if x < MIN then MIN - x else if x > MAX then x - MAX else 0
  {
    if x < MIN then Wrap(x + MODULUS)
    else if x > MAX then Wrap(x - MODULUS)
    else x
  }

  /** `Wrap` only subtracts a multiple of 2^32. */
  lemma {:induction false} WrapCongruent(x: int) returns (k: int)
    ensures Wrap(x) == x + MODULUS * k
    decreases if x < MIN then MIN - x else if x > MAX then x - MAX else 0
  {
    if x < MIN {
      var j := WrapCongruent(x + MODULUS);
      k := j + 1;
    } else if x > MAX {
      var j := WrapCongruent(x - MODULUS);
      k := j - 1;
    } else {
      k := 0;
    }
  }

  /**
   * Wrapping a running total after every step gives the same `int` as
   * wrapping the exact total once: Java's `sum += v` loop computes the
   * exact sum modulo 2^32.
   */
  lemma WrapAdd(a: int, b: int)
    ensures Wrap(Wrap(a) + b) == Wrap(a + b)
  {
    var k0 := WrapCongruent(a);
    var k1 := WrapCongruent(Wrap(a) + b);
    var k2 := WrapCongruent(a + b);
    var d := k0 + k1 - k2;
    assert Wrap(Wrap(a) + b) - Wrap(a + b) == MODULUS * d;
    MultipleBound(d);
  }

  /** A non-zero multiple of 2^32 is at least 2^32 away from zero. */
  lemma MultipleBound(d: int)
    ensures d >= 1 ==> MODULUS * d >= MODULUS
    ensures d <= -1 ==> MODULUS * d <= -MODULUS
  {
  }
}
