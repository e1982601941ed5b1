/**
 * Integer and real arithmetic the formatters rely on: powers of ten,
 * the wrap-around of 64-bit multiplication, Rust's `as` casts and the
 * round-half-to-even step of decimal float rendering.
 */
module Numeric {

  /** 10^n over the unbounded integers. */
  function Pow10(n: nat): (r: nat)
    ensures r >= 1
  {
    if n == 0 then 1 else 10 * Pow10(n - 1)
  }

  lemma {:induction false} Pow10Add(a: nat, b: nat)
    ensures Pow10(a + b) == Pow10(a) * Pow10(b)
  {
    if a > 0 {
      Pow10Add(a - 1, b);
      assert Pow10(a + b) == 10 * Pow10(a - 1 + b);
    }
  }

  lemma {:induction false} Pow10Monotone(a: nat, b: nat)
    requires a <= b
    ensures Pow10(a) <= Pow10(b)
  {
    if a < b {
      Pow10Monotone(a, b - 1);
    }
  }

  /** `n / 10^k`: `n` with its last `k` decimal digits dropped. */
  function DropDigits(n: nat, k: nat): nat {
    if k == 0 then n else DropDigits(n / 10, k - 1)
  }

  /** `n % 10^k`: the last `k` decimal digits of `n`. */
  function LowDigits(n: nat, k: nat): (r: nat)
    ensures r < Pow10(k)
  {
    if k == 0 then 0 else 10 * LowDigits(n / 10, k - 1) + n % 10
  }

  /** The two parts put back together give the number. */
  lemma {:induction false} SplitDigits(n: nat, k: nat)
    ensures n == DropDigits(n, k) * Pow10(k) + LowDigits(n, k)
  {
    if k > 0 {
      SplitDigits(n / 10, k - 1);
      var q, l, p := DropDigits(n / 10, k - 1), LowDigits(n / 10, k - 1), Pow10(k - 1);
      assert n / 10 == q * p + l;
      assert DropDigits(n, k) == q;
      assert LowDigits(n, k) == 10 * l + n % 10;
      assert Pow10(k) == 10 * p;
      MulTen(q, p);
      assert n == 10 * (n / 10) + n % 10;
    }
  }

  lemma MulTen(q: nat, p: nat)
    ensures q * (10 * p) == 10 * (q * p)
  {
  }

  /** Dropping `k` digits of a number below 10^(a+k) leaves a number below 10^a. */
  lemma {:induction false} DropDigitsBelow(n: nat, a: nat, k: nat)
    requires n < Pow10(a + k)
    ensures DropDigits(n, k) < Pow10(a)
  {
    if k > 0 {
      assert Pow10(a + k) == 10 * Pow10(a + k - 1);
      DropDigitsBelow(n / 10, a, k - 1);
    }
  }

  /** Dropping `k` digits of a number at or above 10^(a+k) leaves a number at or above 10^a. */
  lemma {:induction false} DropDigitsAtLeast(n: nat, a: nat, k: nat)
    requires n >= Pow10(a + k)
    ensures DropDigits(n, k) >= Pow10(a)
  {
    if k > 0 {
      assert Pow10(a + k) == 10 * Pow10(a + k - 1);
      DropDigitsAtLeast(n / 10, a, k - 1);
    }
  }

  lemma Pow10Even(n: nat)
    requires n >= 1
    ensures Pow10(n) % 2 == 0
  {
    assert Pow10(n) == 2 * (5 * Pow10(n - 1));
  }

  /** 10^n as a real. */
  function Pow10R(n: nat): (r: real)
    ensures r >= 1.0
  {
    if n == 0 then 1.0 else 10.0 * Pow10R(n - 1)
  }

  lemma {:induction false} Pow10RIsPow10(n: nat)
    ensures Pow10R(n) == Pow10(n) as real
  {
    if n > 0 {
      Pow10RIsPow10(n - 1);
    }
  }

  lemma {:induction false} Pow10RAdd(a: nat, b: nat)
    ensures Pow10R(a + b) == Pow10R(a) * Pow10R(b)
  {
    if a > 0 {
      Pow10RAdd(a - 1, b);
      assert Pow10R(a + b) == 10.0 * Pow10R(a - 1 + b);
    }
  }

  const I64_MIN: int := -0x8000_0000_0000_0000
  const I64_MAX: int := 0x7FFF_FFFF_FFFF_FFFF
  const I32_MIN: int := -0x8000_0000
  const I32_MAX: int := 0x7FFF_FFFF
  const U32_MAX: nat := 0xFFFF_FFFF

  /** Rust's fixed-width integer types, as ranges of the unbounded integers. */
  type U8 = x: int | 0 <= x < 0x100
  type U32 = x: int | 0 <= x <= U32_MAX
  type I32 = x: int | I32_MIN <= x <= I32_MAX
  type I64 = x: int | I64_MIN <= x <= I64_MAX

  /** `u8` addition in a release build: the sum modulo 2^8. */
  function WrapU8(x: int): (r: U8)
    ensures 0 <= x < 0x100 ==> r == x
    ensures (r - x) % 0x100 == 0
  {
    x % 0x100
  }

  /** The two's-complement reading of `x` modulo 2^64 (what a release build's `i64` arithmetic yields). */
  function WrapI64(x: int): (r: int)
    ensures I64_MIN <= r <= I64_MAX
    ensures (r - x) % 0x1_0000_0000_0000_0000 == 0
  {
    (x - I64_MIN) % 0x1_0000_0000_0000_0000 + I64_MIN
  }

  /**
   * `10i64.pow(n)` in a release build: every multiplication wraps modulo
   * 2^64, so the result is 10^n reduced into the `i64` range.
   */
  function WrappingPow10I64(n: nat): (r: int)
    ensures n <= 18 ==> r == Pow10(n)
    ensures I64_MIN <= r <= I64_MAX
    ensures (r - Pow10(n)) % 0x1_0000_0000_0000_0000 == 0
  {
    if n <= 18 then Pow10Below19(n); WrapI64Identity(Pow10(n)); WrapI64(Pow10(n))
    else WrapI64(Pow10(n))
  }

  lemma WrapI64Identity(x: int)
    requires I64_MIN <= x <= I64_MAX
    ensures WrapI64(x) == x
  {
  }

  lemma Pow10Below19(n: nat)
    requires n <= 18
    ensures Pow10(n) <= I64_MAX
  {
    Pow10Monotone(n, 18);
    assert Pow10(3) == 1000;
    Pow10Add(3, 3);
    Pow10Add(6, 3);
    Pow10Add(9, 9);
  }

  /** `x as u32` for a float: truncates toward zero and saturates at 0 and `u32::MAX`. */
  function SaturatingU32(x: real): (r: nat)
    ensures r <= U32_MAX
    ensures 0.0 <= x < U32_MAX as real ==> r as real <= x < r as real + 1.0
    ensures x < 0.0 ==> r == 0
    ensures x >= U32_MAX as real ==> r == U32_MAX
  {
    if x < 0.0 then 0
    else if x >= U32_MAX as real then U32_MAX
    else x.Floor
  }

  /** `x as usize` after `ceil()`: negative and zero inputs give 0. */
  function CeilToNat(x: real): (r: nat)
    ensures x <= 0.0 ==> r == 0
    ensures x > 0.0 ==> x <= r as real < x + 1.0
  {
    if x <= 0.0 then 0
    else if x.Floor as real == x then x.Floor
    else x.Floor + 1
  }

  /**
   * The integer nearest to `x`, ties going to the even neighbour: the
   * rounding Rust applies when it renders a float with a fixed number
   * of decimals.
   */
  function RoundHalfEven(x: real): (n: int)
    ensures x - 0.5 <= n as real <= x + 0.5
    ensures (n as real == x - 0.5 || n as real == x + 0.5) ==> n % 2 == 0
  {
    var f := x.Floor;
    var frac := x - f as real;
    if frac < 0.5 then f
    else if frac > 0.5 then f + 1
    else if f % 2 == 0 then f
    else f + 1
  }

  /** Rounding never goes below zero for a non-negative input. */
  lemma RoundNonNegative(x: real)
    requires x >= 0.0
    ensures RoundHalfEven(x) >= 0
  {
  }
}
