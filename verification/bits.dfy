/** Python's integer bit operators on non-negative integers.

    Python integers have no width, so `a << n`, `a | b` and `a & b` are
    defined digit by digit on the binary expansions. These definitions are
    used by the register decoder, which combines two bytes with `<<` and `|`
    and tests the sign bit with `&`. */
module Bits {

  /** 2 to the power n. */
  function Pow2(n: nat): (r: nat)
    ensures r >= 1
  {
    if n == 0 then 1 else 2 * Pow2(n - 1)
  }

  /** `a << n`: shifting left by n places multiplies by 2^n. */
  function ShiftLeft(a: nat, n: nat): nat {
    a * Pow2(n)
  }

  /** `a | b`, one binary digit at a time, least significant first. */
  function BitOr(a: nat, b: nat): nat
    decreases a + b
  {
    if a == 0 && b == 0 then 0
    else 2 * BitOr(a / 2, b / 2) + (if a % 2 == 1 || b % 2 == 1 then 1 else 0)
  }

  /** `a & b`, one binary digit at a time, least significant first. */
  function BitAnd(a: nat, b: nat): nat
    decreases a + b
  {
    if a == 0 && b == 0 then 0
    else 2 * BitAnd(a / 2, b / 2) + (if a % 2 == 1 && b % 2 == 1 then 1 else 0)
  }

  /** Binary digit k of a (digit 0 is the least significant). */
  function Bit(a: nat, k: nat): bool {
    if k == 0 then a % 2 == 1 else Bit(a / 2, k - 1)
  }

  /** Or-ing with zero changes nothing. */
  lemma {:induction false} OrZero(a: nat)
    ensures BitOr(a, 0) == a
    decreases a
  {
    if a != 0 {
      OrZero(a / 2);
    }
  }

  /** When the low operand fits below bit k and the high operand has been
      shifted past it, `|` adds: the two operands share no set digit. */
  lemma {:induction false} OrDisjoint(h: nat, l: nat, k: nat)
    requires l < Pow2(k)
    ensures BitOr(ShiftLeft(h, k), l) == ShiftLeft(h, k) + l
    decreases k
  {
    if k == 0 {
      assert l == 0;
      OrZero(ShiftLeft(h, k));
    } else {
      var a := ShiftLeft(h, k);
      assert a == 2 * ShiftLeft(h, k - 1);
      assert l / 2 < Pow2(k - 1);
      OrDisjoint(h, l / 2, k - 1);
      if a == 0 && l == 0 {
      } else {
        assert a / 2 == ShiftLeft(h, k - 1);
        assert a % 2 == 0;
      }
    }
  }

  /** And-ing with 2^k keeps only digit k: the result is non-zero exactly
      when that digit of a is set. */
  lemma {:induction false} AndSingleBit(a: nat, k: nat)
    ensures BitAnd(a, Pow2(k)) != 0 <==> Bit(a, k)
    decreases k
  {
    if k == 0 {
      AndOne(a);
    } else {
      var p := Pow2(k);
      assert p / 2 == Pow2(k - 1) && p % 2 == 0;
      AndSingleBit(a / 2, k - 1);
    }
  }

  /** `a & 1` is the lowest digit of a. */
  lemma AndOne(a: nat)
    ensures BitAnd(a, 1) == a % 2
  {
    AndZero(a / 2);
  }

  /** And-ing with zero gives zero. */
  lemma {:induction false} AndZero(a: nat)
    ensures BitAnd(a, 0) == 0
    decreases a
  {
    if a != 0 {
      AndZero(a / 2);
    }
  }

  /** Below 2^(k+1), digit k is set exactly from 2^k upwards. */
  lemma {:induction false} TopBit(a: nat, k: nat)
    requires a < Pow2(k + 1)
    ensures Bit(a, k) <==> a >= Pow2(k)
    decreases k
  {
    if k > 0 {
      TopBit(a / 2, k - 1);
    }
  }
}
