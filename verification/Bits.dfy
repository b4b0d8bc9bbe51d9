/**
 Bitwise operators on unbounded naturals, defined digit by digit, with the few
 laws the wire codec (masking) and the snowflake ids (packing) rely on.
 */
module Bits {

  function Pow2(n: nat): (p: nat)
    ensures p >= 1
  {
    if n == 0 then 1 else 2 * Pow2(n - 1)
  }

  /** x << n. */
  function Shl(x: nat, n: nat): (r: nat)
    decreases n
  {
    if n == 0 then x else 2 * Shl(x, n - 1)
  }

  function Xor(a: nat, b: nat): (r: nat)
    decreases a + b
  {
    if a == 0 && b == 0 then 0 else 2 * Xor(a / 2, b / 2) + (if a % 2 == b % 2 then 0 else 1)
  }

  function Or(a: nat, b: nat): (r: nat)
    decreases a + b
  {
    if a == 0 && b == 0 then 0
    else 2 * Or(a / 2, b / 2) + (if a % 2 == 1 || b % 2 == 1 then 1 else 0)
  }

  /** Xor keeps a value inside the width of its operands. */
  lemma {:induction false} XorBound(a: nat, b: nat, n: nat)
    requires a < Pow2(n) && b < Pow2(n)
    ensures Xor(a, b) < Pow2(n)
  {
    if n > 0 && (a > 0 || b > 0) {
      XorBound(a / 2, b / 2, n - 1);
    }
  }

  /** Applying the same mask twice restores the value. */
  lemma {:induction false} XorTwice(a: nat, k: nat)
    ensures Xor(Xor(a, k), k) == a
    decreases a + k
  {
    if a > 0 || k > 0 {
      XorTwice(a / 2, k / 2);
      assert Xor(a, k) / 2 == Xor(a / 2, k / 2);
    }
  }

  /** Bit i of a number. */
  predicate Bit(a: nat, i: nat) {
    if i == 0 then a % 2 == 1 else Bit(a / 2, i - 1)
  }

  /** Exclusive or, bit by bit. */
  lemma {:induction false} XorBit(a: nat, b: nat, i: nat)
    ensures Bit(Xor(a, b), i) <==> Bit(a, i) != Bit(b, i)
    decreases i
  {
    if a > 0 || b > 0 {
      assert Xor(a, b) / 2 == Xor(a / 2, b / 2);
    }
    if i > 0 {
      XorBit(a / 2, b / 2, i - 1);
    }
  }

  /** Inclusive or, bit by bit. */
  lemma {:induction false} OrBit(a: nat, b: nat, i: nat)
    ensures Bit(Or(a, b), i) <==> Bit(a, i) || Bit(b, i)
    decreases i
  {
    if a > 0 || b > 0 {
      assert Or(a, b) / 2 == Or(a / 2, b / 2);
    }
    if i > 0 {
      OrBit(a / 2, b / 2, i - 1);
    }
  }

  /** Or-ing a low field into a value whose low n bits are clear adds it. */
  lemma {:induction false} OrLowField(a: nat, b: nat, n: nat)
    requires b < Pow2(n)
    ensures Or(Shl(a, n), b) == Shl(a, n) + b
    decreases n
  {
    if n == 0 {
      OrZero(a);
    } else {
      OrLowField(a, b / 2, n - 1);
      OrDigit(Shl(a, n), b);
    }
  }

  /** Or commutes with shifting both operands. */
  lemma {:induction false} OrShifted(a: nat, b: nat, n: nat)
    ensures Or(Shl(a, n), Shl(b, n)) == Shl(Or(a, b), n)
    decreases n
  {
    if n > 0 {
      OrShifted(a, b, n - 1);
      OrDigit(Shl(a, n), Shl(b, n));
    }
  }

  lemma OrDigit(a: nat, b: nat)
    ensures Or(a, b) == 2 * Or(a / 2, b / 2) + (if a % 2 == 1 || b % 2 == 1 then 1 else 0)
  {
  }

  /** Or with zero changes nothing. */
  lemma {:induction false} OrZero(a: nat)
    ensures Or(a, 0) == a && Or(0, a) == a
  {
    if a > 0 {
      OrZero(a / 2);
    }
  }
}
