/** Bitwise operators on natural numbers, defined bit by bit, and how they relate to arithmetic. */
module Bits {
  import opened Common

  function Pow2(k: nat): nat {
    if k == 0 then 1 else 2 * Pow2(k - 1)
  }

  function And(a: nat, b: nat): nat {
    if a == 0 || b == 0 then 0 else (a % 2) * (b % 2) + 2 * And(a / 2, b / 2)
  }

  function Or(a: nat, b: nat): nat {
    if a == 0 && b == 0 then 0
    else (if a % 2 == 1 || b % 2 == 1 then 1 else 0) + 2 * Or(a / 2, b / 2)
  }

  /** A left shift in a 64-bit word: bits pushed out at the top are lost. */
  function ShiftLeft64(a: nat, k: nat): nat {
    (a * Pow2(k)) % TWO_64
  }

  function ShiftRight(a: nat, k: nat): nat {
    if k == 0 then a else ShiftRight(a / 2, k - 1)
  }

  lemma {:induction false} Pow2Positive(k: nat)
    ensures Pow2(k) > 0
  {
    if k > 0 {
      Pow2Positive(k - 1);
    }
  }

  lemma {:induction false} Pow2Add(a: nat, b: nat)
    ensures Pow2(a + b) == Pow2(a) * Pow2(b)
  {
    if a > 0 {
      Pow2Add(a - 1, b);
    }
  }

  lemma Pow2Values()
    ensures Pow2(7) == 128 && Pow2(63) == TWO_64 / 2 && Pow2(64) == TWO_64
  {
    assert Pow2(4) == 16;
    assert Pow2(7) == 8 * Pow2(4);
    Pow2Add(4, 4);
    Pow2Add(8, 8);
    Pow2Add(16, 16);
    Pow2Add(32, 32);
    assert Pow2(64) == 2 * Pow2(63);
  }

  lemma MulAtLeast(x: int, d: int)
    requires x >= 1 && d > 0
    ensures x * d >= d
  {
    var y := x - 1;
    assert y * d >= 0;
    assert x * d == y * d + d;
  }

  lemma DivModFacts(a: int, d: int)
    requires d > 0
    ensures a == (a / d) * d + a % d && 0 <= a % d < d
  {
  }

  lemma Divide(a: nat, d: nat) returns (q: nat, r: nat)
    requires d > 0
    ensures a == q * d + r && r < d
  {
    q, r := a / d, a % d;
    DivModFacts(a, d);
  }

  /** Division with remainder is unique. */
  lemma DivModUnique(a: int, d: int, q: int, r: int)
    requires d > 0 && a == q * d + r && 0 <= r < d
    ensures a / d == q && a % d == r
  {
    DivModFacts(a, d);
    QuotientUnique(d, q, r, a / d, a % d);
  }

  lemma QuotientUnique(d: int, q: int, r: int, q': int, r': int)
    requires d > 0 && q * d + r == q' * d + r' && 0 <= r < d && 0 <= r' < d
    ensures q == q' && r == r'
  {
    var x := q - q';
    assert x * d == q * d - q' * d;
    if x >= 1 {
      MulAtLeast(x, d);
    } else if x <= -1 {
      MulAtLeast(-x, d);
    }
  }

  lemma {:induction false} OrZero(b: nat)
    ensures Or(0, b) == b
  {
    if b > 0 {
      OrZero(b / 2);
    }
  }

  /** Numbers that share no bit are or-ed by adding them. */
  lemma {:induction false} OrIsSum(a: nat, c: nat, k: nat)
    requires a < Pow2(k)
    ensures Or(a, c * Pow2(k)) == a + c * Pow2(k)
  {
    if k == 0 {
      OrZero(c);
    } else {
      var b := c * Pow2(k);
      assert b == 2 * (c * Pow2(k - 1));
      OrIsSum(a / 2, c, k - 1);
    }
  }

  /** Division by 2m, by way of the half. */
  lemma HalfFirst(a: nat, m: nat)
    requires m > 0
    ensures a % (2 * m) == a % 2 + 2 * ((a / 2) % m) && a / (2 * m) == (a / 2) / m
  {
    var h := a / 2;
    DivModFacts(h, m);
    var q, r := h / m, h % m;
    assert q * (2 * m) == 2 * (q * m);
    DivModUnique(a, 2 * m, q, a % 2 + 2 * r);
  }

  /** A right shift by k divides by 2^k. */
  lemma {:induction false} ShiftRightDivides(a: nat, k: nat)
    ensures Pow2(k) > 0 && ShiftRight(a, k) == a / Pow2(k)
  {
    Pow2Positive(k);
    if k > 0 {
      ShiftRightDivides(a / 2, k - 1);
      HalfFirst(a, Pow2(k - 1));
    }
  }

  /** Masking with the k lowest bits is the remainder by 2^k. */
  lemma {:induction false} AndMask(a: nat, k: nat)
    ensures Pow2(k) > 0 && And(a, Pow2(k) - 1) == a % Pow2(k)
  {
    Pow2Positive(k);
    if k > 0 {
      AndMask(a / 2, k - 1);
      HalfFirst(a, Pow2(k - 1));
      MaskStep(a, Pow2(k - 1));
    }
  }

  lemma MaskStep(a: nat, m: nat)
    requires m > 0
    ensures And(a, 2 * m - 1) == a % 2 + 2 * And(a / 2, m - 1)
  {
    assert (2 * m - 1) / 2 == m - 1 && (2 * m - 1) % 2 == 1;
  }

  /** Testing the bit at position k. */
  lemma {:induction false} AndBit(a: nat, k: nat)
    requires a < 2 * Pow2(k)
    ensures And(a, Pow2(k)) == if a < Pow2(k) then 0 else Pow2(k)
  {
    Pow2Positive(k);
    if k > 0 && a > 0 {
      AndBit(a / 2, k - 1);
    } else if a > 0 {
      assert And(a / 2, 0) == 0;
    }
  }
}
