/**
 * Helpers shared by all entries: the global sort-key counter, the
 * red-yellow-green threshold colourings and the fixed-width formatters
 * for integers, floats and times of day.
 */
module Utils {
  import opened Numeric
  import opened Text
  import opened Colors

  // ---------------------------------------------------------------------
  // Sort keys

  /** `fetch_add(1)` on an `i32`: one more, wrapping from the largest value to the smallest. */
  function WrappingSucc(k: I32): I32 {
    if k == I32_MAX then I32_MIN else k + 1
  }

  /** The key handed out by the `i`-th call (counting from zero) of `next_sort_key`. */
  function IssuedKey(i: nat): I32 {
    if i == 0 then 1 else WrappingSucc(IssuedKey(i - 1))
  }

  /**
   * The process-wide `NEXT_SORT_KEY` counter, an `i32` that starts at 1
   * and is bumped by a wrapping `fetch_add` on every call.
   */
  class SortKeyCounter {
    var next: I32
    /** How many keys have been handed out so far. */
    ghost var calls: nat

    ghost predicate Valid()
      reads this
    {
      next == IssuedKey(calls)
    }

    constructor()
      ensures Valid() && calls == 0 && next == 1
    {
      next := 1;
      calls := 0;
    }

    /** `next_sort_key`: returns the current counter value and advances it. */
    method NextSortKey() returns (key: I32)
      requires Valid()
      modifies this
      ensures Valid()
      ensures key == old(next) == IssuedKey(old(calls))
      ensures next == WrappingSucc(old(next))
      ensures calls == old(calls) + 1
    {
      key := next;
      next := WrappingSucc(next);
      calls := calls + 1;
    }
  }

  /**
   * Until the counter wraps, the `i`-th key is `i + 1`: the first call
   * returns 1 and every later call one more than the call before, so an
   * entry built later sorts after every entry built earlier.
   */
  lemma {:induction false} IssuedKeysCount(i: nat)
    requires i < I32_MAX
    ensures IssuedKey(i) == i + 1
  {
    if i > 0 {
      IssuedKeysCount(i - 1);
    }
  }

  /** After 2^31 - 1 keys the counter wraps to the most negative `i32`. */
  lemma IssuedKeyWraps()
    ensures IssuedKey(I32_MAX) == I32_MIN
  {
    IssuedKeysCount(I32_MAX - 1);
  }

  // ---------------------------------------------------------------------
  // Threshold colourings

  /** Which of the four branches of `ryg_gradient_*` a value falls in. */
  datatype Band = AtOrAboveHigh | UpperHalf | LowerHalf | BelowLow

  function RygBand(low: real, mid: real, high: real, value: real): (b: Band)
    ensures b == AtOrAboveHigh <==> value >= high
    ensures b == UpperHalf <==> mid <= value < high
    ensures b == LowerHalf <==> low <= value < mid && value < high
    ensures b == BelowLow <==> value < low && value < mid && value < high
  {
    if value >= high then AtOrAboveHigh
    else if value >= mid then UpperHalf
    else if value >= low then LowerHalf
    else BelowLow
  }

  /** `ryg_gradient_down`: green at or above `high`, through yellow at `mid`, to red below `low`. */
  function RygGradientDown(low: real, mid: real, high: real, value: real): (c: Color)
    ensures ChannelsInUnit(c)
    ensures c.b == 0.0 && c.a == 1.0
  {
    match RygBand(low, mid, high, value)
    case AtOrAboveHigh => GREEN
    case UpperHalf => Srgb(1.0 - Fraction(value - mid, high - mid), 1.0, 0.0)
    case LowerHalf => Srgb(1.0, Fraction(value - low, mid - low), 0.0)
    case BelowLow => RED
  }

  /** `ryg_gradient_up`: red at or above `high`, through yellow at `mid`, to green below `low`. */
  function RygGradientUp(low: real, mid: real, high: real, value: real): (c: Color)
    ensures ChannelsInUnit(c)
  {
    match RygBand(low, mid, high, value)
    case AtOrAboveHigh => RED
    case UpperHalf => Srgb(1.0, 1.0 - Fraction(value - mid, high - mid), 0.0)
    case LowerHalf => Srgb(Fraction(value - low, mid - low), 1.0, 0.0)
    case BelowLow => GREEN
  }

  /** `n / d` for a numerator in [0, d): the position inside a band. */
  function Fraction(n: real, d: real): (f: real)
    requires 0.0 <= n < d
    ensures 0.0 <= f < 1.0
  {
    UnitQuotient(n, d);
    n / d
  }

  lemma UnitQuotient(n: real, d: real)
    requires 0.0 <= n < d
    ensures 0.0 <= n / d < 1.0
  {
    var q := n / d;
    assert q * d == n;
    assert (1.0 - q) * d == d - n;
  }

  /** The rising colouring is the falling one with red and green exchanged. */
  lemma RygUpMirrorsDown(low: real, mid: real, high: real, value: real)
    ensures RygGradientUp(low, mid, high, value) == SwapRG(RygGradientDown(low, mid, high, value))
  {
  }

  lemma FractionMonotone(n1: real, n2: real, d: real)
    requires 0.0 <= n1 <= n2 < d
    ensures Fraction(n1, d) <= Fraction(n2, d)
  {
    assert n1 / d <= n2 / d by {
      assert n2 / d - n1 / d == (n2 - n1) / d;
    }
  }

  /**
   * With ordered thresholds, a larger value never gets more red nor less
   * green from `ryg_gradient_down`.
   */
  lemma {:induction false} RygDownMonotone(low: real, mid: real, high: real, v1: real, v2: real)
    requires low <= mid <= high && v1 <= v2
    ensures RygGradientDown(low, mid, high, v2).r <= RygGradientDown(low, mid, high, v1).r
    ensures RygGradientDown(low, mid, high, v1).g <= RygGradientDown(low, mid, high, v2).g
  {
    var b1, b2 := RygBand(low, mid, high, v1), RygBand(low, mid, high, v2);
    if b1 == UpperHalf && b2 == UpperHalf {
      FractionMonotone(v1 - mid, v2 - mid, high - mid);
    } else if b1 == LowerHalf && b2 == LowerHalf {
      FractionMonotone(v1 - low, v2 - low, mid - low);
    }
  }

  // ---------------------------------------------------------------------
  // Integers

  /** The number of digits an integer keeps for a sign: one fewer than requested, at least one. */
  function NegativeDigits(digits: U8): (d: nat)
    ensures 1 <= d <= 254
  {
    (if digits < 2 then 2 else digits) - 1
  }

  function PositiveDigits(digits: U8): (d: nat)
    ensures 1 <= d <= 255
  {
    if digits < 1 then 1 else digits
  }

  /** The value `format_pretty_int` prints: clamped to `digits` nines (one fewer, and a minus sign, when negative). */
  function ClampInt(digits: U8, value: int): (r: int)
    ensures value >= 0 ==> 0 <= r < Pow10(PositiveDigits(digits))
    ensures value < 0 ==> -(Pow10(NegativeDigits(digits)) as int) < r < 0
    ensures (value >= 0 && value < Pow10(PositiveDigits(digits))) ==> r == value
    ensures (value < 0 && -value < Pow10(NegativeDigits(digits))) ==> r == value
    ensures value >= Pow10(PositiveDigits(digits)) ==> r == Pow10(PositiveDigits(digits)) - 1
    ensures value < 0 && -value >= Pow10(NegativeDigits(digits)) ==> r == -(Pow10(NegativeDigits(digits)) - 1)
  {
    if value < 0 then
      var max := Pow10(NegativeDigits(digits));
      if -value >= max then -(max - 1) else value
    else
      var max := Pow10(PositiveDigits(digits));
      if value >= max then max - 1 else value
  }

  /** The field width `format_pretty_int` right-aligns in. */
  function IntWidth(digits: U8, value: int): nat {
    if value < 0 then NegativeDigits(digits) + 1 else PositiveDigits(digits)
  }

  /**
   * `format_pretty_int` with the clamp computed exactly: the value, clamped
   * to the digits available, right-aligned in a field of that many digits
   * (one more for the minus sign of a negative value).
   */
  function FormatPrettyInt(digits: U8, value: int): string {
    PadLeft(IntText(ClampInt(digits, value)), IntWidth(digits, value))
  }

  /** The output always fills its field exactly, and trims back to the decimal text of the clamped value. */
  lemma FormatPrettyIntShape(digits: U8, value: int)
    ensures |FormatPrettyInt(digits, value)| == IntWidth(digits, value)
    ensures Trim(FormatPrettyInt(digits, value)) == IntText(ClampInt(digits, value))
  {
    var c := ClampInt(digits, value);
    ClampedTextFits(digits, value);
    TrimPadLeft(IntText(c), IntWidth(digits, value));
    TrimIntText(c);
  }

  lemma ClampedTextFits(digits: U8, value: int)
    ensures |IntText(ClampInt(digits, value))| <= IntWidth(digits, value)
  {
    var c := ClampInt(digits, value);
    if value < 0 {
      DigitCount(-c, NegativeDigits(digits));
    } else {
      DigitCount(c, PositiveDigits(digits));
    }
  }

  /** Decimal text has no surrounding whitespace. */
  lemma TrimIntText(v: int)
    ensures Trim(IntText(v)) == IntText(v)
  {
    var s := IntText(v);
    var d := DecimalDigits(if v < 0 then -v else v);
    assert s[|s| - 1] == d[|d| - 1];
    TrimUnchanged(s);
  }

  /** Every value at or above the largest printable one prints as that one. */
  lemma FormatPrettyIntSaturates(digits: U8, value: int)
    requires value >= Pow10(PositiveDigits(digits))
    ensures FormatPrettyInt(digits, value) == FormatPrettyInt(digits, Pow10(PositiveDigits(digits)) - 1)
  {
    var top := Pow10(PositiveDigits(digits)) - 1;
    assert ClampInt(digits, value) == ClampInt(digits, top);
    assert IntWidth(digits, value) == IntWidth(digits, top);
  }

  /** Every value at or below the most negative printable one prints as that one. */
  lemma FormatPrettyIntSaturatesNegative(digits: U8, value: int)
    requires value < 0 && -value >= Pow10(NegativeDigits(digits))
    ensures FormatPrettyInt(digits, value) == FormatPrettyInt(digits, -(Pow10(NegativeDigits(digits)) - 1))
  {
    var bottom := -(Pow10(NegativeDigits(digits)) - 1);
    assert ClampInt(digits, value) == ClampInt(digits, bottom);
    assert IntWidth(digits, value) == IntWidth(digits, bottom);
  }

  /**
   * The clamp of `format_pretty_int` as written: in a release build
   * `10i64.pow(d)` and the negations wrap modulo 2^64 instead of failing.
   */
  function ClampIntAsWritten(digits: U8, value: I64): int {
    if value < 0 then
      var max := WrappingPow10I64(NegativeDigits(digits));
      if WrapI64(-(value as int)) >= max then WrapI64(-WrapI64(max - 1)) else value
    else
      var max := WrappingPow10I64(PositiveDigits(digits));
      if value >= max then WrapI64(max - 1) else value
  }

  /** `format_pretty_int` as written, with the wrapping clamp. */
  function FormatPrettyIntAsWritten(digits: U8, value: I64): string {
    PadLeft(IntText(ClampIntAsWritten(digits, value)), IntWidth(digits, value))
  }

  /** Up to 18 digits, and away from `i64::MIN`, no arithmetic wraps and the two agree. */
  lemma FormatPrettyIntAgrees(digits: U8, value: I64)
    requires digits <= 18 && value != I64_MIN
    ensures FormatPrettyIntAsWritten(digits, value) == FormatPrettyInt(digits, value)
  {
    ClampAgrees(digits, value);
  }

  lemma ClampAgrees(digits: U8, value: I64)
    requires digits <= 18 && value != I64_MIN
    ensures ClampIntAsWritten(digits, value) == ClampInt(digits, value)
  {
    if value < 0 {
      var d := NegativeDigits(digits);
      Pow10Below19(d);
      WrapI64Identity(-(value as int));
      WrapI64Identity(Pow10(d) - 1);
      WrapI64Identity(-(Pow10(d) - 1));
    } else {
      var d := PositiveDigits(digits);
      Pow10Below19(d);
      WrapI64Identity(Pow10(d) - 1);
    }
  }

  /**
   * With 19 digits, 10^19 wraps to a negative `i64`, the small value 5
   * counts as too large, and the "clamped" value printed is a negative
   * number of 20 characters in a 19-character field.
   */
  lemma FormatPrettyIntOverflows()
    ensures FormatPrettyIntAsWritten(19, 5) == IntText(-8446744073709551617)
    ensures |FormatPrettyIntAsWritten(19, 5)| == 20
    ensures Trim(FormatPrettyInt(19, 5)) == "5" && |FormatPrettyInt(19, 5)| == 19
  {
    var big := 10_000_000_000_000_000_000;
    assert Pow10(19) == big by {
      assert Pow10(9) == 1_000_000_000;
      assert Pow10(10) == 10_000_000_000;
      Pow10Add(9, 10);
    }
    assert WrapI64(big) == -8446744073709551616;
    WrapI64Identity(-8446744073709551617);
    assert ClampIntAsWritten(19, 5) == -8446744073709551617;
    assert Pow10(18) == 1_000_000_000_000_000_000 by {
      assert Pow10(9) == 1_000_000_000;
      Pow10Add(9, 9);
    }
    DigitCount(8446744073709551617, 19);
    FormatPrettyIntShape(19, 5);
  }

  // ---------------------------------------------------------------------
  // Floats

  /** `digits` floored at 1. */
  function FloatDigits(digits: U8): (d: nat)
    ensures d >= 1 && (digits >= 1 ==> d == digits)
  {
    if digits < 1 then 1 else digits
  }

  /** The width the source computes: digits, the point and the fraction digits, added as `u8` (wrapping). */
  function FloatWidthAsWritten(digits: U8, precision: U8): U8 {
    if precision > 0 then WrapU8(FloatDigits(digits) + precision + 1) else FloatDigits(digits)
  }

  /** The width the formatter means: digits, the point and the fraction digits. */
  function FloatWidth(digits: U8, precision: U8): (w: nat)
    ensures precision == 0 ==> w == FloatDigits(digits)
    ensures precision > 0 ==> w == FloatDigits(digits) + precision + 1
    ensures FloatDigits(digits) + precision + 1 < 0x100 ==> w == FloatWidthAsWritten(digits, precision)
  {
    if precision > 0 then FloatDigits(digits) + precision + 1 else FloatDigits(digits)
  }

  /** The largest value that prints with `digits` integer digits and `precision` fraction digits. */
  function FloatMax(digits: U8, precision: U8): real {
    Pow10R(FloatDigits(digits)) - 1.0 / Pow10R(precision)
  }

  /** The clamp as written: only values at or above 10^digits are replaced. */
  function FloatClampAsWritten(digits: U8, precision: U8, value: real): (r: real)
    ensures value >= Pow10R(FloatDigits(digits)) ==> r == FloatMax(digits, precision)
    ensures value < Pow10R(FloatDigits(digits)) ==> r == value
  {
    if value >= Pow10R(FloatDigits(digits)) then FloatMax(digits, precision) else value
  }

  /** `format_pretty_float` as written: clamp at 10^digits, render with `precision` decimals, right-align. */
  function FormatPrettyFloatAsWritten(digits: U8, precision: U8, value: real): (s: string)
    ensures |s| >= 1 && |s| >= FloatWidthAsWritten(digits, precision) && IsDigit(s[|s| - 1])
  {
    var text := FixedText(FloatClampAsWritten(digits, precision, value), precision);
    PadLeftLast(text, FloatWidthAsWritten(digits, precision));
    PadLeft(text, FloatWidthAsWritten(digits, precision))
  }

  lemma PadLeftLast(text: string, w: nat)
    requires |text| >= 1
    ensures var r := PadLeft(text, w); |r| >= w && r[|r| - 1] == text[|text| - 1]
  {
    var r := PadLeft(text, w);
    assert r[|r| - |text|..][|text| - 1] == r[|r| - 1];
  }

  /**
   * The clamp threshold that keeps the rendering inside its field: every
   * value that would round up to 10^digits is clamped, not just the ones
   * already at or above it.
   */
  function FloatLimit(digits: U8, precision: U8): real {
    Pow10R(FloatDigits(digits)) - 0.5 / Pow10R(precision)
  }

  function FloatClamp(digits: U8, precision: U8, value: real): (r: real)
    ensures value >= FloatLimit(digits, precision) ==> r == FloatMax(digits, precision)
    ensures value < FloatLimit(digits, precision) ==> r == value
  {
    if value >= FloatLimit(digits, precision) then FloatMax(digits, precision) else value
  }

  /** `format_pretty_float` with the clamp threshold and the width corrected. */
  function FormatPrettyFloat(digits: U8, precision: U8, value: real): (s: string)
    ensures |s| >= FloatWidth(digits, precision) && IsDigit(s[|s| - 1])
  {
    PadLeft(FixedText(FloatClamp(digits, precision, value), precision), FloatWidth(digits, precision))
  }

  /** A unit suffix ending in a non-digit is present after a rendered number exactly when it was appended. */
  lemma NumberSuffixIffOn(digits: U8, precision: U8, v: real, suffix: string, on: bool)
    requires |suffix| >= 1 && !IsDigit(suffix[|suffix| - 1])
    ensures EndsWith(WithSuffix(FormatPrettyFloatAsWritten(digits, precision, v), suffix, on), suffix) <==> on
  {
    SuffixIffOn(FormatPrettyFloatAsWritten(digits, precision, v), suffix, on);
  }

  /**
   * The two clamps differ only between the corrected limit and 10^digits:
   * elsewhere, and when the width does not wrap, the source's formatter
   * prints what the corrected one does.
   */
  lemma FormatPrettyFloatAgrees(digits: U8, precision: U8, value: real)
    requires precision == 0 || FloatDigits(digits) + precision + 1 < 0x100
    requires value < FloatLimit(digits, precision) || value >= Pow10R(FloatDigits(digits))
    ensures FormatPrettyFloatAsWritten(digits, precision, value) == FormatPrettyFloat(digits, precision, value)
  {
    assert 0.5 / Pow10R(precision) > 0.0;
  }

  /**
   * The corrected limit is the least one that keeps the field: a
   * non-negative value reaches it exactly when its `{:.p}` rendering needs
   * more integer digits than the field has.
   */
  lemma FloatLimitExact(digits: U8, precision: U8, value: real)
    requires value >= 0.0
    ensures value >= FloatLimit(digits, precision) <==> |FixedText(value, precision)| > FloatWidth(digits, precision)
  {
    var d := FloatDigits(digits);
    Pow10RAdd(d, precision);
    LimitScaled(Pow10R(d), Pow10R(precision), value);
    if value >= FloatLimit(digits, precision) {
      WiderPastLimit(value, precision, d);
    } else {
      FixedTextWidth(value, precision, d);
    }
  }

  /** A value whose scaled rounding reaches 10^(d+p) needs more than `d` integer digits. */
  lemma WiderPastLimit(v: real, p: nat, d: nat)
    requires v >= 0.0 && d >= 1
    requires v * Pow10R(p) >= Pow10R(d + p) - 0.5
    ensures |FixedText(v, p)| > d + (if p > 0 then p + 1 else 0)
  {
    var n := ScaledRound(v, p);
    ScaledAtLimit(v, p, d);
    DropDigitsAtLeast(n, d, p);
    DigitCount(DropDigits(n, p), d + 1);
  }

  /** Scaling the limit by 10^p: `value` is below `top - 1/2 * 10^-p` exactly when `value * 10^p` is below `top * 10^p - 1/2`. */
  lemma LimitScaled(top: real, scale: real, value: real)
    requires scale >= 1.0
    ensures value >= top - 0.5 / scale <==> value * scale >= top * scale - 0.5
  {
    assert (top - 0.5 / scale) * scale == top * scale - 0.5;
    if value >= top - 0.5 / scale {
      assert value * scale >= (top - 0.5 / scale) * scale;
    } else {
      assert value * scale < (top - 0.5 / scale) * scale;
    }
  }

  /** A scaled value at or above 10^(d+p) - 1/2 rounds to at least 10^(d+p): the tie goes to the even 10^(d+p). */
  lemma ScaledAtLimit(v: real, p: nat, d: nat)
    requires v >= 0.0 && d >= 1
    requires v * Pow10R(p) >= Pow10R(d + p) - 0.5
    ensures ScaledRound(v, p) >= Pow10(d + p)
  {
    var n, x, top := ScaledRound(v, p), Abs(v) * Pow10R(p), Pow10(d + p);
    assert Abs(v) == v;
    assert x >= Pow10R(d + p) - 0.5;
    Pow10RIsPow10(d + p);
    Pow10Even(d + p);
    TieAtEvenLimit(n, x, top);
  }

  /** A rounding within one half of `x >= top - 1/2` that breaks ties to even reaches the even `top`. */
  lemma TieAtEvenLimit(n: int, x: real, top: int)
    requires top % 2 == 0 && x >= top as real - 0.5
    requires x - 0.5 <= n as real && (n as real == x - 0.5 ==> n % 2 == 0)
    ensures n >= top
  {
    assert n >= top - 1;
    assert n == top - 1 ==> n as real == x - 0.5;
  }

  /**
   * Between the corrected limit and 10^digits the source's clamp lets the
   * value through, and its rendering is wider than the field.
   */
  lemma FormatPrettyFloatOverflowsField(digits: U8, precision: U8, value: real)
    requires precision == 0 || FloatDigits(digits) + precision + 1 < 0x100
    requires value >= 0.0 && FloatLimit(digits, precision) <= value < Pow10R(FloatDigits(digits))
    ensures |FormatPrettyFloatAsWritten(digits, precision, value)| > FloatWidth(digits, precision)
  {
    FloatLimitExact(digits, precision, value);
  }

  /** A non-negative value always renders in exactly the field width. */
  lemma FormatPrettyFloatWidth(digits: U8, precision: U8, value: real)
    requires value >= 0.0
    ensures |FormatPrettyFloat(digits, precision, value)| == FloatWidth(digits, precision)
  {
    var d := FloatDigits(digits);
    var c := FloatClamp(digits, precision, value);
    Pow10RAdd(d, precision);
    ClampedFits(Pow10R(d), Pow10R(precision), Pow10R(d + precision), value, c);
    FixedTextWidth(c, precision, d);
    var t := FixedText(c, precision);
    assert |t| <= FloatWidth(digits, precision);
  }

  /** The arithmetic behind the corrected limit: scaled by 10^p, a clamped value is below 10^(d+p) - 1/2. */
  lemma ClampedFits(top: real, scale: real, scaledTop: real, value: real, c: real)
    requires scale >= 1.0 && top >= 1.0 && top * scale == scaledTop && value >= 0.0
    requires value >= top - 0.5 / scale ==> c == top - 1.0 / scale
    requires value < top - 0.5 / scale ==> c == value
    ensures c >= 0.0 && c * scale < scaledTop - 0.5
  {
    if value >= top - 0.5 / scale {
      assert c * scale == top * scale - (1.0 / scale) * scale;
      assert 1.0 / scale <= 1.0;
    } else {
      assert c * scale < (top - 0.5 / scale) * scale;
    }
  }

  /** Below the limit a value is printed as is, only padded. */
  lemma FormatPrettyFloatKeepsValue(digits: U8, precision: U8, value: real)
    requires value < FloatLimit(digits, precision)
    ensures Trim(FormatPrettyFloat(digits, precision, value)) == Trim(FixedText(value, precision))
  {
    TrimPadLeft(FixedText(value, precision), FloatWidth(digits, precision));
  }

  /** Clamping at 10^digits lets 9999.7 round to a fifth digit in a four-digit field. */
  lemma FormatPrettyFloatRoundsPastWidth()
    ensures FormatPrettyFloatAsWritten(4, 0, 9999.7) == "10000"
    ensures FormatPrettyFloat(4, 0, 9999.7) == "9999"
  {
    assert RoundHalfEven(9999.7) == 10000;
    assert DecimalDigits(10000) == "10000";
    assert FloatLimit(4, 0) == 9999.5;
    assert RoundHalfEven(9999.0) == 9999;
    assert DecimalDigits(9999) == "9999";
  }

  /** The `u8` width sum wraps: 200 digits and 55 decimals ask for a field of 256, which becomes 0. */
  lemma FormatPrettyFloatWidthWraps()
    ensures FloatWidthAsWritten(200, 55) == 0
    ensures |FormatPrettyFloatAsWritten(200, 55, 0.0)| == 57
    ensures |FormatPrettyFloat(200, 55, 0.0)| == 256
  {
    FixedTextZero(55);
    FormatPrettyFloatWidth(200, 55, 0.0);
  }

  lemma FixedTextZero(p: nat)
    ensures |FixedText(0.0, p)| == if p > 0 then p + 2 else 1
  {
    assert 0.0 * Pow10R(p) == 0.0;
    assert ScaledRound(0.0, p) == 0;
    Pow10Monotone(0, 1 + p);
    DropDigitsBelow(0, 1, p);
  }

  // ---------------------------------------------------------------------
  // Times

  /** Whole seconds of 99:59:59, the longest time that fits. */
  const MAX_PRETTY_SECS: nat := 99 * 3600 + 59 * 60 + 59

  const NANOS_PER_SEC: nat := 1_000_000_000

  /** The fields `format_pretty_time_hms` prints after reducing its inputs. */
  datatype HmsFields = HmsFields(hrs: nat, mins: nat, secs: nat, frac: nat)

  function Sanitize(precision: U8, h: U32, m: U32, s: U32, nanos: U32): (f: HmsFields)
    ensures f.hrs < 100 && f.mins < 60 && f.secs < 60
    ensures f.hrs == h % 100 && f.mins == m % 60 && f.secs == s % 60
    ensures nanos < NANOS_PER_SEC && precision <= 9 ==> f.frac < Pow10(precision)
  {
    var p := if precision < 9 then precision else 9;
    var f := HmsFields(h % 100, m % 60, s % 60, DropDigits(nanos, 9 - p));
    FracBound(nanos, p);
    f
  }

  lemma FracBound(nanos: nat, p: nat)
    requires p <= 9
    ensures nanos < NANOS_PER_SEC ==> DropDigits(nanos, 9 - p) < Pow10(p)
  {
    assert Pow10(9) == NANOS_PER_SEC;
    if nanos < NANOS_PER_SEC {
      DropDigitsBelow(nanos, p, 9 - p);
    }
  }

  /** `{:02}` */
  function TwoDigits(n: nat): (s: string)
    ensures n < 100 ==> |s| == 2
  {
    DigitCount(n, 2);
    ZeroPad(n, 2)
  }

  /** `{:w}` for a number below 100 in a field of at least 2. */
  function PadNumber(n: nat, w: nat): (s: string)
    ensures n < 100 && w >= 2 ==> |s| == w
  {
    DigitCount(n, 2);
    PadLeft(DecimalDigits(n), w)
  }

  /**
   * `format_pretty_time_hms`: `HH:MM:SS`, with the hours and then the
   * minutes left out (and space-padded over) while they are zero, and a
   * `precision`-digit fraction when `precision > 0`.
   */
  function FormatPrettyTimeHms(precision: U8, h: U32, m: U32, s: U32, nanos: U32): string {
    var f := Sanitize(precision, h, m, s, nanos);
    var clock := ClockText(f);
    if precision > 0 then clock + "." + ZeroPad(f.frac, precision) else clock
  }

  /** The `H:MM:SS` part, always eight characters wide. */
  function ClockText(f: HmsFields): (t: string)
    requires f.hrs < 100 && f.mins < 60 && f.secs < 60
    ensures |t| == 8
  {
    if f.hrs > 0 then PadNumber(f.hrs, 2) + ":" + TwoDigits(f.mins) + ":" + TwoDigits(f.secs)
    else if f.mins > 0 then PadNumber(f.mins, 5) + ":" + TwoDigits(f.secs)
    else PadNumber(f.secs, 8)
  }

  /** For sub-second nanos the layout always has the same width: 8, plus a point and `precision` digits. */
  lemma FormatPrettyTimeHmsWidth(precision: U8, h: U32, m: U32, s: U32, nanos: U32)
    requires nanos < NANOS_PER_SEC
    ensures |FormatPrettyTimeHms(precision, h, m, s, nanos)| == if precision > 0 then 9 + precision else 8
  {
    if precision > 0 {
      var f := Sanitize(precision, h, m, s, nanos);
      var p := if precision < 9 then precision else 9;
      assert f.frac < Pow10(precision) by {
        FracBound(nanos, p);
        Pow10Monotone(p, precision);
      }
      DigitCount(f.frac, precision);
    }
  }

  /** The hours appear iff the reduced hours are non-zero; else the minutes iff non-zero; else only the seconds. */
  lemma FormatPrettyTimeHmsLayout(precision: U8, h: U32, m: U32, s: U32, nanos: U32)
    ensures var t := FormatPrettyTimeHms(precision, h, m, s, nanos);
      var f := Sanitize(precision, h, m, s, nanos);
      && |t| >= 8
      && (t[2] == ':' <==> f.hrs > 0)
      && (t[5] == ':' <==> f.hrs > 0 || f.mins > 0)
  {
    var f := Sanitize(precision, h, m, s, nanos);
    ClockFirst(precision, h, m, s, nanos);
    ClockLayout(f);
  }

  /** The text starts with the eight-character clock. */
  lemma ClockFirst(precision: U8, h: U32, m: U32, s: U32, nanos: U32)
    ensures var t := FormatPrettyTimeHms(precision, h, m, s, nanos);
      |t| >= 8 && t[..8] == ClockText(Sanitize(precision, h, m, s, nanos))
  {
  }

  /** Hours below 100 are printed as given: the hours field shows exactly when they are non-zero. */
  lemma FormatPrettyTimeHmsHours(precision: U8, h: U32, m: U32, s: U32, nanos: U32)
    requires h < 100
    ensures var t := FormatPrettyTimeHms(precision, h, m, s, nanos); |t| >= 8 && (t[2] == ':' <==> h > 0)
  {
    var f := Sanitize(precision, h, m, s, nanos);
    assert f.hrs == h;
    FormatPrettyTimeHmsLayout(precision, h, m, s, nanos);
  }

  lemma ClockLayout(f: HmsFields)
    requires f.hrs < 100 && f.mins < 60 && f.secs < 60
    ensures var t := ClockText(f);
      && (t[2] == ':' <==> f.hrs > 0)
      && (t[5] == ':' <==> f.hrs > 0 || f.mins > 0)
  {
    if f.hrs > 0 {
      HoursLayout(PadNumber(f.hrs, 2), TwoDigits(f.mins), TwoDigits(f.secs));
    } else if f.mins > 0 {
      PaddedBlank(f.mins, 5);
      MinutesLayout(PadNumber(f.mins, 5), TwoDigits(f.secs));
    } else {
      PaddedBlank(f.secs, 8);
    }
  }

  lemma HoursLayout(a: string, b: string, c: string)
    requires |a| == 2 && |b| == 2 && |c| == 2
    ensures (a + ":" + b + ":" + c)[2] == ':' && (a + ":" + b + ":" + c)[5] == ':'
  {
  }

  lemma MinutesLayout(a: string, c: string)
    requires |a| == 5 && |c| == 2 && a[2] == ' '
    ensures (a + ":" + c)[2] == ' ' && (a + ":" + c)[5] == ':'
  {
  }

  /** A number below 100 padded to `w` has blanks everywhere before its last two places. */
  lemma PaddedBlank(n: nat, w: nat)
    requires n < 100 && w >= 2
    ensures forall i :: 0 <= i < w - 2 ==> PadNumber(n, w)[i] == ' '
  {
    DigitCount(n, 2);
  }

  /** `Duration::as_secs` and `subsec_nanos` for a duration held as nanoseconds. */
  function WholeSecs(nanos: nat): nat { nanos / NANOS_PER_SEC }
  function SubsecNanos(nanos: nat): (r: nat) ensures r < NANOS_PER_SEC { nanos % NANOS_PER_SEC }

  /** The text printed for a time beyond 99:59:59. */
  function SaturatedTime(precision: U8): string {
    if precision > 0 then "99:59:59." + Repeat('9', precision) else "99:59:59"
  }

  /**
   * `format_pretty_time`: a duration (in nanoseconds) as `H:MM:SS`,
   * saturating at 99:59:59 and its nines.
   */
  function FormatPrettyTime(precision: U8, value: nat): string {
    var secs := WholeSecs(value);
    if secs > MAX_PRETTY_SECS then SaturatedTime(precision)
    else FormatPrettyTimeHms(precision, secs / 3600, secs / 60, secs, SubsecNanos(value))
  }

  /** The printed hours, minutes and seconds add back up to the whole seconds of the duration. */
  lemma FormatPrettyTimeFields(precision: U8, value: nat)
    requires WholeSecs(value) <= MAX_PRETTY_SECS
    ensures var secs := WholeSecs(value);
      var f := Sanitize(precision, secs / 3600, secs / 60, secs, SubsecNanos(value));
      f.hrs * 3600 + f.mins * 60 + f.secs == secs
  {
  }

  /** Beyond 99:59:59 every duration prints as 99:59:59, then a point and `precision` nines. */
  lemma FormatPrettyTimeSaturates(precision: U8, value: nat)
    requires WholeSecs(value) > MAX_PRETTY_SECS
    ensures var t := FormatPrettyTime(precision, value);
      && t[..8] == "99:59:59"
      && (precision == 0 ==> |t| == 8)
      && (precision > 0 ==> |t| == 9 + precision && t[8] == '.' && forall i :: 9 <= i < |t| ==> t[i] == '9')
  {
    var t := FormatPrettyTime(precision, value);
    if precision > 0 {
      var nines := Repeat('9', precision);
      assert t == "99:59:59." + nines;
      assert forall i :: 9 <= i < |t| ==> t[i] == nines[i - 9];
    }
  }

  /** Every duration, saturated or not, prints in the same width. */
  lemma FormatPrettyTimeWidth(precision: U8, value: nat)
    ensures |FormatPrettyTime(precision, value)| == if precision > 0 then 9 + precision else 8
  {
    var secs := WholeSecs(value);
    if secs <= MAX_PRETTY_SECS {
      FormatPrettyTimeHmsWidth(precision, secs / 3600, secs / 60, secs, SubsecNanos(value));
    }
  }
}
