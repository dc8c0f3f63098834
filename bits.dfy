/** Python's bitwise OR on non-negative integers of unbounded width, and the
    facts about it that the CPW packing relies on. */
module Bits {

  /** 2 to the power k. */
  function Pow2(k: nat): (r: nat)
    ensures r >= 1
  {
    if k == 0 then 1 else 2 * Pow2(k - 1)
  }

  /** `a << k`: a shifted left by k bits. This equals `a * Pow2(k)`, but it is
      written as repeated doubling so that the lane proofs below stay linear;
      `Pow2` only bounds the low lane in `OrLanes`. */
  function Shl(a: nat, k: nat): nat
  {
    if k == 0 then a else 2 * Shl(a, k - 1)
  }

  /** The lowest bit of `a | b`. */
  function LowBit(a: nat, b: nat): nat
  {
    if a % 2 == 1 || b % 2 == 1 then 1 else 0
  }

  /** `a | b` for non-negative integers, one bit at a time from the least
      significant end. */
  function Or(a: nat, b: nat): nat
    decreases a + b
  {
    if a == 0 && b == 0 then 0
    else 2 * Or(a / 2, b / 2) + LowBit(a, b)
  }

  /** Zero is the identity of OR, on either side. */
  lemma {:induction false} OrZero(a: nat)
    ensures Or(a, 0) == a && Or(0, a) == a
  {
    if a != 0 {
      OrZero(a / 2);
    }
  }

  /** OR is idempotent. */
  lemma {:induction false} OrSelf(a: nat)
    ensures Or(a, a) == a
  {
    if a != 0 {
      OrSelf(a / 2);
    }
  }

  /** OR splits into the lowest bit and the bits above it. */
  lemma OrStep(x: nat, y: nat, x0: nat, y0: nat)
    requires x0 < 2 && y0 < 2
    ensures Or(2 * x + x0, 2 * y + y0) == 2 * Or(x, y) + Or(x0, y0)
  {
  }

  /** OR works lane by lane: the low k bits and the bits above them are
      combined separately. */
  lemma {:induction false} OrLanes(a: nat, b: nat, c: nat, d: nat, k: nat)
    requires c < Pow2(k) && d < Pow2(k)
    ensures Or(Shl(a, k) + c, Shl(b, k) + d) == Shl(Or(a, b), k) + Or(c, d)
  {
    if k == 0 {
      assert c == 0 && d == 0;
    } else {
      var x, y := Shl(a, k - 1) + c / 2, Shl(b, k - 1) + d / 2;
      OrStep(x, y, c % 2, d % 2);
      OrLanes(a, b, c / 2, d / 2, k - 1);
      OrStep(c / 2, d / 2, c % 2, d % 2);
    }
  }

  /** Shifting by one byte multiplies by 256. */
  lemma ShlByte(a: nat)
    ensures Shl(a, 8) == 256 * a
  {
    assert Shl(a, 8) == 2 * Shl(a, 7) == 4 * Shl(a, 6) == 8 * Shl(a, 5) == 16 * Shl(a, 4);
    assert Shl(a, 4) == 2 * Shl(a, 3) == 4 * Shl(a, 2) == 8 * Shl(a, 1) == 16 * Shl(a, 0);
  }

  /** OR works byte by byte: the low byte and the bytes above it are combined
      separately. */
  lemma ByteLanes(a: nat, b: nat, c: nat, d: nat)
    requires c < 256 && d < 256
    ensures Or(a * 256 + c, b * 256 + d) == Or(a, b) * 256 + Or(c, d)
  {
    ShlByte(a);
    ShlByte(b);
    ShlByte(Or(a, b));
    assert Pow2(8) == 256;
    OrLanes(a, b, c, d, 8);
  }

  /** ORing a value below 256 into a word whose low byte is zero is addition. */
  lemma OrIntoZeroByte(a: nat, x: nat)
    requires a % 256 == 0 && x < 256
    ensures Or(a, x) == a + x
  {
    ByteLanes(a / 256, 0, 0, x);
    OrZero(a / 256);
    OrZero(x);
    assert a == a / 256 * 256 + 0;
    assert x == 0 * 256 + x;
  }
}
