/**
 Unsigned 64-bit operators on naturals.

 The position functions of the flat forest are written with shifts and masks on u64.
 Here those operators are defined on naturals, digit by digit, with the left shift
 truncated to 64 bits, and related to the arithmetic they stand for.
 */
module Bits {

  const WORD: nat := 0x1_0000_0000_0000_0000

  /** `x * 2^k`, without truncation. */
  function Scale(x: nat, k: nat): (r: nat)
    ensures r >= x
  {
    if k == 0 then x else 2 * Scale(x, k - 1)
  }

  function Pow2(k: nat): (r: nat)
    ensures r > 0
  {
    if k == 0 then 1 else 2 * Pow2(k - 1)
  }

  /** `x >> k`. */
  function Shr(x: nat, k: nat): (r: nat)
    ensures r <= x
  {
    if k == 0 then x else Shr(x, k - 1) / 2
  }

  /** The `k` low bits of `x`. */
  function Low(x: nat, k: nat): nat {
    if k == 0 then 0 else 2 * Low(x / 2, k - 1) + x % 2
  }

  /** `x << k` on a 64-bit word: each doubling drops the bit that leaves the word. */
  function Shl(x: nat, k: nat): nat {
    if k == 0 then x else (2 * Shl(x, k - 1)) % WORD
  }

  function And(a: nat, b: nat): nat {
    if a == 0 || b == 0 then 0
    else 2 * And(a / 2, b / 2) + (if a % 2 == 1 && b % 2 == 1 then 1 else 0)
  }

  function Or(a: nat, b: nat): nat
    decreases a + b
  {
    if a == 0 then b
    else if b == 0 then a
    else 2 * Or(a / 2, b / 2) + (if a % 2 == 1 || b % 2 == 1 then 1 else 0)
  }

  /** `x ^ 1`. */
  function FlipLow(x: nat): nat {
    if x % 2 == 0 then x + 1 else x - 1
  }

  lemma {:induction false} Pow2Step(k: nat)
    ensures Pow2(k + 1) == 2 * Pow2(k)
  {
  }

  lemma {:induction false} Pow2Monotone(a: nat, b: nat)
    requires a <= b
    ensures Pow2(a) <= Pow2(b)
    decreases b
  {
    if a < b { Pow2Monotone(a, b - 1); }
  }

  lemma {:induction false} ScaleOfPow2(a: nat, b: nat)
    ensures Scale(Pow2(a), b) == Pow2(a + b)
  {
    if b > 0 { ScaleOfPow2(a, b - 1); }
  }

  lemma {:induction false} ScaleOne(k: nat)
    ensures Scale(1, k) == Pow2(k)
  {
    ScaleOfPow2(0, k);
  }

  lemma {:induction false} ScaleAdd(a: nat, b: nat, k: nat)
    ensures Scale(a + b, k) == Scale(a, k) + Scale(b, k)
  {
    if k > 0 { ScaleAdd(a, b, k - 1); }
  }

  lemma {:induction false} ScaleMonotone(a: nat, b: nat, k: nat)
    requires a <= b
    ensures Scale(a, k) <= Scale(b, k)
  {
    if k > 0 { ScaleMonotone(a, b, k - 1); }
  }

  lemma {:induction false} ScaleDouble(x: nat, k: nat)
    ensures Scale(2 * x, k) == 2 * Scale(x, k) == Scale(x, k + 1)
  {
    if k > 0 { ScaleDouble(x, k - 1); }
  }

  /** Shifting right undoes scaling, whatever was added below. */
  lemma {:induction false} ShrScale(x: nat, k: nat, low: nat)
    requires low < Pow2(k)
    ensures Shr(Scale(x, k) + low, k) == x
  {
    if k > 0 {
      ShrScale(x, k - 1, low / 2);
      ShrHalf(Scale(x, k) + low, k - 1);
      assert (Scale(x, k) + low) / 2 == Scale(x, k - 1) + low / 2;
    }
  }

  lemma {:induction false} ShrShr(x: nat, a: nat, b: nat)
    ensures Shr(Shr(x, a), b) == Shr(x, a + b)
  {
    if b > 0 { ShrShr(x, a, b - 1); }
  }

  /** Halving first and shifting after is shifting once more. */
  lemma {:induction false} ShrHalf(x: nat, k: nat)
    ensures Shr(x / 2, k) == Shr(x, k + 1)
  {
    ShrShr(x, 1, k);
    assert Shr(x, 1) == x / 2 by { assert Shr(x, 0) == x; }
  }

  lemma {:induction false} ShrMonotone(x: nat, y: nat, k: nat)
    requires x <= y
    ensures Shr(x, k) <= Shr(y, k)
  {
    if k > 0 { ShrMonotone(x, y, k - 1); }
  }

  /** A number below `2^(k+j)` shifted by `k` is below `2^j`. */
  lemma {:induction false} ShrBound(x: nat, k: nat, j: nat)
    ensures x < Pow2(k + j) ==> Shr(x, k) < Pow2(j)
    ensures x <= Pow2(k + j) ==> Shr(x, k) <= Pow2(j)
  {
    if k > 0 {
      ShrBound(x, k - 1, j + 1);
      assert k - 1 + (j + 1) == k + j;
    }
  }

  lemma {:induction false} ShrZero(k: nat)
    ensures Shr(0, k) == 0
  {
    if k > 0 { ShrZero(k - 1); }
  }

  /** OR with a multiple of `2^k` adds it to a number below `2^k`. */
  lemma {:induction false} OrDisjoint(a: nat, k: nat, m: nat)
    requires a < Pow2(k)
    ensures Or(a, Scale(m, k)) == a + Scale(m, k)
  {
    if k > 0 && a != 0 && m != 0 {
      OrDisjoint(a / 2, k - 1, m);
    }
    if m == 0 { ScaleZero(k); }
  }

  /** AND with `2^k - 1` keeps the low `k` bits. */
  lemma {:induction false} AndMask(x: nat, k: nat)
    ensures And(x, Pow2(k) - 1) == Low(x, k)
  {
    if k > 0 {
      AndMask(x / 2, k - 1);
      assert (Pow2(k) - 1) / 2 == Pow2(k - 1) - 1;
      if x == 0 { LowSmall(0, k); }
    }
  }

  lemma {:induction false} LowSmall(x: nat, k: nat)
    requires x < Pow2(k)
    ensures Low(x, k) == x
  {
    if k > 0 { LowSmall(x / 2, k - 1); }
  }

  /** What is a multiple of `2^k` does not show in the low `k` bits. */
  lemma {:induction false} LowScale(x: nat, m: nat, k: nat)
    ensures Low(x + Scale(m, k), k) == Low(x, k)
  {
    if k > 0 {
      LowScale(x / 2, m, k - 1);
      assert (x + Scale(m, k)) / 2 == x / 2 + Scale(m, k - 1);
    }
  }

  lemma {:induction false} LowBound(x: nat, k: nat)
    ensures Low(x, k) < Pow2(k)
  {
    if k > 0 { LowBound(x / 2, k - 1); }
  }

  /** The low and the high part make up the number. */
  lemma {:induction false} Split(x: nat, k: nat)
    ensures x == Scale(Shr(x, k), k) + Low(x, k)
  {
    if k > 0 {
      Split(x / 2, k - 1);
      ShrHalf(x, k - 1);
    }
  }

  /** AND with `1 << k` tests bit `k`. */
  lemma {:induction false} AndBit(x: nat, k: nat)
    ensures And(x, Pow2(k)) != 0 <==> Shr(x, k) % 2 == 1
  {
    if k == 0 {
      assert And(x / 2, 0) == 0;
    } else if x > 0 {
      AndBit(x / 2, k - 1);
      assert Pow2(k) / 2 == Pow2(k - 1);
      ShrHalf(x, k - 1);
    } else {
      ShrZero(k);
    }
  }

  /** AND with `(2^m - 1) << k` clears the low `k` bits of a number below `2^(m+k)`. */
  lemma {:induction false} AndHigh(x: nat, k: nat, m: nat)
    requires x < Pow2(m + k)
    ensures And(x, Scale(Pow2(m) - 1, k)) == Scale(Shr(x, k), k)
  {
    if k == 0 {
      AndMask(x, m);
      LowSmall(x, m);
    } else {
      AndHigh(x / 2, k - 1, m);
      ShrHalf(x, k - 1);
      if x == 0 { ShrZero(k); ScaleZero(k); }
    }
  }

  lemma {:induction false} ScaleZero(k: nat)
    ensures Scale(0, k) == 0
  {
    if k > 0 { ScaleZero(k - 1); }
  }

  lemma {:induction false} ShlExact(x: nat, k: nat)
    requires Scale(x, k) < WORD
    ensures Shl(x, k) == Scale(x, k)
  {
    if k > 0 { ShlExact(x, k - 1); }
  }

  lemma {:induction false} Pow2Sum(a: nat, b: nat)
    ensures Pow2(a + b) == Pow2(a) * Pow2(b)
  {
    if b > 0 { Pow2Sum(a, b - 1); }
  }

  lemma {:induction false} Pow2Of64()
    ensures Pow2(64) == WORD
  {
    assert Pow2(8) == 256;
    Pow2Sum(8, 8);
    Pow2Sum(16, 16);
    Pow2Sum(32, 32);
  }

  /** Truncation only loses what lies above the word. */
  lemma {:induction false} ShlLow(x: nat, k: nat, j: nat)
    requires j <= 64
    ensures Low(Shl(x, k), j) == Low(Scale(x, k), j)
  {
    if k > 0 && j > 0 {
      ShlLow(x, k - 1, j - 1);
      var y := 2 * Shl(x, k - 1);
      var q := y / WORD;
      assert y == Shl(x, k) + q * WORD;
      MultipleOfWord(q, j);
      LowScale(Shl(x, k), q * Pow2(64 - j), j);
      assert y / 2 == Shl(x, k - 1);
    }
  }

  lemma {:induction false} MultipleOfWord(q: nat, j: nat)
    requires j <= 64
    ensures q * WORD == Scale(q * Pow2(64 - j), j)
  {
    Pow2Of64();
    ScaleOfPow2(64 - j, j);
    ScaleTimes(q, Pow2(64 - j), j);
  }

  lemma {:induction false} ScaleTimes(q: nat, x: nat, k: nat)
    ensures Scale(q * x, k) == q * Scale(x, k)
  {
    if q == 0 {
      ScaleZero(k);
    } else {
      ScaleTimes(q - 1, x, k);
      assert q * x == (q - 1) * x + x;
      ScaleAdd((q - 1) * x, x, k);
      assert q * Scale(x, k) == (q - 1) * Scale(x, k) + Scale(x, k);
    }
  }
}
