/**
 * The text side of Rust's formatting machinery as the overlay uses it:
 * decimal digits, right alignment (`{:>w}`), zero padding (`{:0w}`),
 * fixed-precision float rendering (`{:.p}`) and `str::trim`.
 */
module Text {
  import opened Numeric

  predicate IsDigit(c: char) {
    '0' <= c <= '9'
  }

  predicate AllDigits(s: string) {
    forall i :: 0 <= i < |s| ==> IsDigit(s[i])
  }

  function DigitChar(d: nat): (c: char)
    requires d < 10
    ensures IsDigit(c)
  {
    ('0' as int + d) as char
  }

  function DigitValue(c: char): (d: nat)
    requires IsDigit(c)
    ensures d < 10
  {
    c as int - '0' as int
  }

  /** The decimal representation of `n`, without leading zeros ("0" for zero). */
  function DecimalDigits(n: nat): (s: string)
    ensures |s| >= 1
    ensures AllDigits(s)
    ensures |s| > 1 ==> s[0] != '0'
  {
    if n < 10 then [DigitChar(n)] else DecimalDigits(n / 10) + [DigitChar(n % 10)]
  }

  /** Reads a string of decimal digits back as a number. */
  function ParseDigits(s: string): nat
    requires AllDigits(s)
  {
    if s == [] then 0 else 10 * ParseDigits(s[..|s| - 1]) + DigitValue(s[|s| - 1])
  }

  /** Reading the rendered digits gives the number back. */
  lemma {:induction false} ParseDecimalDigits(n: nat)
    ensures ParseDigits(DecimalDigits(n)) == n
  {
    var s := DecimalDigits(n);
    if n >= 10 {
      ParseDecimalDigits(n / 10);
      assert s[..|s| - 1] == DecimalDigits(n / 10);
    }
  }

  /** A number below 10^k needs at most k digits, one at or above 10^(k-1) at least k. */
  lemma {:induction false} DigitCount(n: nat, k: nat)
    requires k >= 1
    ensures n < Pow10(k) ==> |DecimalDigits(n)| <= k
    ensures n >= Pow10(k - 1) ==> |DecimalDigits(n)| >= k
  {
    if n >= 10 && k >= 2 {
      DigitCount(n / 10, k - 1);
    } else if n >= 10 {
      Pow10Monotone(0, k - 1);
    } else if k >= 2 {
      Pow10Monotone(1, k - 1);
    }
  }

  /** Decimal text of a signed integer, as `{}` renders an `i64`. */
  function IntText(v: int): (s: string)
    ensures |s| >= 1
    ensures v < 0 <==> s[0] == '-'
  {
    if v < 0 then "-" + DecimalDigits(-v) else DecimalDigits(v)
  }

  /** After the sign, `{}` of an integer is digits that read back as its magnitude. */
  lemma IntTextValue(v: int)
    ensures var s := IntText(v); var digits := if v < 0 then s[1..] else s;
      AllDigits(digits) && ParseDigits(digits) == if v < 0 then -v else v
  {
    ParseDecimalDigits(if v < 0 then -v else v);
  }

  function Repeat(c: char, n: nat): (s: string)
    ensures |s| == n
    ensures forall i :: 0 <= i < n ==> s[i] == c
  {
    seq(n, _ => c)
  }

  /** `{:>w}`: right-aligns `s` in a field of `w` characters; longer text is never cut. */
  function PadLeft(s: string, w: nat): (r: string)
    ensures |r| == if |s| < w then w else |s|
    ensures r[|r| - |s|..] == s
    ensures forall i :: 0 <= i < |r| - |s| ==> r[i] == ' '
  {
    if |s| < w then Repeat(' ', w - |s|) + s else s
  }

  /** `{:0w}` for a non-negative number: leading zeros up to `w` digits. */
  function ZeroPad(n: nat, w: nat): (r: string)
    ensures AllDigits(r)
    ensures |r| == if |DecimalDigits(n)| < w then w else |DecimalDigits(n)|
    ensures ParseDigits(r) == n
  {
    var d := DecimalDigits(n);
    var r := if |d| < w then Repeat('0', w - |d|) + d else d;
    ParseDecimalDigits(n);
    ParseLeadingZeros(w - |d| as int, d);
    r
  }

  lemma {:induction false} ParseLeadingZeros(k: int, d: string)
    requires AllDigits(d)
    ensures k > 0 ==> ParseDigits(Repeat('0', k) + d) == ParseDigits(d)
  {
    if k > 0 && d != [] {
      var s := Repeat('0', k) + d;
      assert s[..|s| - 1] == Repeat('0', k) + d[..|d| - 1];
      ParseLeadingZeros(k, d[..|d| - 1]);
    } else if k > 0 {
      ParseZeros(k);
      assert Repeat('0', k) + d == Repeat('0', k);
    }
  }

  lemma {:induction false} ParseZeros(k: nat)
    ensures ParseDigits(Repeat('0', k)) == 0
  {
    if k > 0 {
      assert Repeat('0', k)[..k - 1] == Repeat('0', k - 1);
      ParseZeros(k - 1);
    }
  }

  /**
   * `{:.p}` applied to a float whose exact value is `v`: the sign, the
   * integer part, and for `p > 0` a point and exactly `p` fraction
   * digits, after rounding half to even at the last kept digit.
   */
  function FixedText(v: real, p: nat): (s: string)
    ensures |s| >= 1
    ensures IsDigit(s[|s| - 1])
  {
    (if v < 0.0 then "-" else "") + UnsignedFixed(ScaledRound(v, p), p)
  }

  /**
   * `{:.p}` text starts with '-' exactly for a negative value, and after
   * the sign it is the unsigned rendering of |v| scaled by 10^p and
   * rounded half to even.
   */
  lemma FixedTextValue(v: real, p: nat)
    ensures var s := FixedText(v, p);
      && (s[0] == '-' <==> v < 0.0)
      && (if v < 0.0 then s[1..] else s) == UnsignedFixed(ScaledRound(v, p), p)
  {
    var u := UnsignedFixed(ScaledRound(v, p), p);
    assert IsDigit(u[0]);
    assert FixedText(v, p) == (if v < 0.0 then "-" else "") + u;
  }

  function Abs(v: real): (r: real)
    ensures r >= 0.0 && (v >= 0.0 ==> r == v)
  {
    if v < 0.0 then -v else v
  }

  /** |v| scaled by 10^p and rounded half to even: the digits `{:.p}` prints. */
  function ScaledRound(v: real, p: nat): (n: nat)
    ensures Abs(v) * Pow10R(p) - 0.5 <= n as real <= Abs(v) * Pow10R(p) + 0.5
    ensures n as real == Abs(v) * Pow10R(p) - 0.5 ==> n % 2 == 0
  {
    RoundNonNegative(Abs(v) * Pow10R(p));
    RoundHalfEven(Abs(v) * Pow10R(p))
  }

  /** The scaled integer `n` written with `p` digits after the point. */
  function UnsignedFixed(n: nat, p: nat): (s: string)
    ensures |s| >= 1
    ensures IsDigit(s[|s| - 1])
    ensures |s| == |DecimalDigits(DropDigits(n, p))| + (if p > 0 then p + 1 else 0)
  {
    if p == 0 then
      assert DropDigits(n, 0) == n;
      DecimalDigits(n)
    else
      FractionDigits(LowDigits(n, p), p);
      DecimalDigits(DropDigits(n, p)) + "." + ZeroPad(LowDigits(n, p), p)
  }

  /**
   * The digits of `UnsignedFixed(n, p)` spell `n`: without decimals they
   * are `n` itself; with them, the integer part times 10^p plus the
   * fraction part.
   */
  lemma UnsignedFixedValue(n: nat, p: nat)
    requires p >= 1
    ensures var s := UnsignedFixed(n, p); var k := |s| - p - 1;
      && 0 <= k < |s| && s[k] == '.'
      && AllDigits(s[..k]) && AllDigits(s[k + 1..])
      && ParseDigits(s[..k]) * Pow10(p) + ParseDigits(s[k + 1..]) == n
  {
    var d, z := DecimalDigits(DropDigits(n, p)), ZeroPad(LowDigits(n, p), p);
    UnsignedFixedParts(n, p);
    var s := UnsignedFixed(n, p);
    var k := |s| - p - 1;
    assert s[..k] == d && s[k + 1..] == z;
    ParseDecimalDigits(DropDigits(n, p));
    SplitDigits(n, p);
  }

  /** Without decimals, the digits are those of `n`. */
  lemma UnsignedWholeValue(n: nat)
    ensures AllDigits(UnsignedFixed(n, 0)) && ParseDigits(UnsignedFixed(n, 0)) == n
  {
    assert UnsignedFixed(n, 0) == DecimalDigits(n);
    ParseDecimalDigits(n);
  }

  /** With decimals, the integer digits, the point and the `p` fraction digits. */
  lemma UnsignedFixedParts(n: nat, p: nat)
    requires p >= 1
    ensures UnsignedFixed(n, p) == DecimalDigits(DropDigits(n, p)) + "." + ZeroPad(LowDigits(n, p), p)
    ensures |ZeroPad(LowDigits(n, p), p)| == p
  {
    FractionDigits(LowDigits(n, p), p);
  }

  lemma FractionDigits(r: nat, p: nat)
    requires p >= 1 && r < Pow10(p)
    ensures |ZeroPad(r, p)| == p
  {
    DigitCount(r, p);
  }

  /** Rendering of a non-negative value whose rounded scaled value stays below 10^(d+p) takes at most d integer digits. */
  lemma FixedTextWidth(v: real, p: nat, d: nat)
    requires d >= 1 && v >= 0.0
    requires v * Pow10R(p) < Pow10R(d + p) - 0.5
    ensures |FixedText(v, p)| <= d + (if p > 0 then p + 1 else 0)
  {
    IntegerPartBelow(v, p, d);
    DigitCount(DropDigits(ScaledRound(v, p), p), d);
  }

  lemma IntegerPartBelow(v: real, p: nat, d: nat)
    requires v >= 0.0
    requires v * Pow10R(p) < Pow10R(d + p) - 0.5
    ensures DropDigits(ScaledRound(v, p), p) < Pow10(d)
  {
    ScaledBelow(v, p, d);
    DropDigitsBelow(ScaledRound(v, p), d, p);
  }

  lemma ScaledBelow(v: real, p: nat, d: nat)
    requires v >= 0.0
    requires v * Pow10R(p) < Pow10R(d + p) - 0.5
    ensures ScaledRound(v, p) < Pow10(d + p)
  {
    var n := ScaledRound(v, p);
    var x := v * Pow10R(p);
    var top := Pow10R(d + p);
    assert x < top - 0.5;
    assert Abs(v) * Pow10R(p) == x;
    assert (n as real) <= x + 0.5;
    assert (n as real) < top;
    Pow10RIsPow10(d + p);
  }

  /** The characters Rust's `char::is_whitespace` accepts (the Unicode White_Space property). */
  const WhiteSpace: set<char> := {
    '\U{9}', '\U{A}', '\U{B}', '\U{C}', '\U{D}', ' ', '\U{85}', '\U{A0}', '\U{1680}',
    '\U{2000}', '\U{2001}', '\U{2002}', '\U{2003}', '\U{2004}', '\U{2005}', '\U{2006}',
    '\U{2007}', '\U{2008}', '\U{2009}', '\U{200A}', '\U{2028}', '\U{2029}', '\U{202F}',
    '\U{205F}', '\U{3000}'
  }

  predicate IsWhitespace(c: char) {
    c in WhiteSpace
  }

  /** The number of whitespace characters `s` starts with. */
  function LeadingWhitespace(s: string): (k: nat)
    ensures k <= |s|
    ensures forall i :: 0 <= i < k ==> IsWhitespace(s[i])
    ensures k < |s| ==> !IsWhitespace(s[k])
  {
    if s != [] && IsWhitespace(s[0]) then
      var k := 1 + LeadingWhitespace(s[1..]);
      assert forall i :: 1 <= i < k ==> s[i] == s[1..][i - 1];
      k
    else 0
  }

  /** The number of whitespace characters `s` ends with. */
  function TrailingWhitespace(s: string): (k: nat)
    ensures k <= |s|
    ensures forall i :: |s| - k <= i < |s| ==> IsWhitespace(s[i])
    ensures k < |s| ==> !IsWhitespace(s[|s| - k - 1])
  {
    if s != [] && IsWhitespace(s[|s| - 1]) then
      var k := 1 + TrailingWhitespace(s[..|s| - 1]);
      assert forall i :: |s| - k <= i < |s| - 1 ==> s[i] == s[..|s| - 1][i];
      k
    else 0
  }

  /** `str::trim_start`: the longest suffix of `s` that does not start with whitespace. */
  function TrimStart(s: string): string {
    s[LeadingWhitespace(s)..]
  }

  /** `str::trim_end`: the longest prefix of `s` that does not end with whitespace. */
  function TrimEnd(s: string): string {
    s[..|s| - TrailingWhitespace(s)]
  }

  /** `str::trim`. */
  function Trim(s: string): string {
    TrimEnd(TrimStart(s))
  }

  /** Text that neither starts nor ends with whitespace is left alone by `trim`. */
  lemma TrimUnchanged(s: string)
    requires s != [] ==> !IsWhitespace(s[0]) && !IsWhitespace(s[|s| - 1])
    ensures Trim(s) == s
  {
    assert TrimStart(s) == s;
  }

  /** Trimming twice is trimming once. */
  lemma TrimIdempotent(s: string)
    ensures Trim(Trim(s)) == Trim(s)
  {
    var a := TrimStart(s);
    var t := TrimEnd(a);
    if t != [] {
      assert t[0] == a[0];
      assert a[0] == s[LeadingWhitespace(s)];
      assert t[|t| - 1] == a[|a| - TrailingWhitespace(a) - 1];
    }
    TrimUnchanged(t);
  }

  /** Right-alignment padding disappears under `trim`. */
  lemma TrimPadLeft(s: string, w: nat)
    ensures Trim(PadLeft(s, w)) == Trim(s)
  {
    if |s| < w {
      var k := w - |s|;
      var x := Repeat(' ', k) + s;
      var l := LeadingWhitespace(s);
      LeadingSpaces(k, s);
      assert x[k..] == s;
      assert x[k + l..] == x[k..][l..];
      assert TrimStart(x) == TrimStart(s);
    }
  }

  lemma {:induction false} LeadingSpaces(k: nat, s: string)
    ensures LeadingWhitespace(Repeat(' ', k) + s) == k + LeadingWhitespace(s)
  {
    var x := Repeat(' ', k) + s;
    if k > 0 {
      assert x[0] == ' ' && IsWhitespace(x[0]);
      assert x[1..] == Repeat(' ', k - 1) + s;
      LeadingSpaces(k - 1, s);
    } else {
      assert x == s;
    }
  }

  predicate StartsWith(s: string, prefix: string) {
    |prefix| <= |s| && s[..|prefix|] == prefix
  }

  predicate EndsWith(s: string, suffix: string) {
    |suffix| <= |s| && s[|s| - |suffix|..] == suffix
  }

  /** Text followed by a unit suffix when `on`. */
  function WithSuffix(s: string, suffix: string, on: bool): string {
    if on then s + suffix else s
  }

  /** A suffix ending in a non-digit is present after a number ending in a digit exactly when it was appended. */
  lemma SuffixIffOn(s: string, suffix: string, on: bool)
    requires |s| >= 1 && IsDigit(s[|s| - 1])
    requires |suffix| >= 1 && !IsDigit(suffix[|suffix| - 1])
    ensures EndsWith(WithSuffix(s, suffix, on), suffix) <==> on
  {
    if on {
      assert (s + suffix)[|s| + |suffix| - |suffix|..] == suffix;
    } else if |suffix| <= |s| {
      assert s[|s| - |suffix|..][|suffix| - 1] == s[|s| - 1];
    }
  }

  /** Two suffixes with different last characters cannot both end the same text. */
  lemma EndsWithOne(s: string, a: string, b: string)
    requires EndsWith(s, a) && |a| >= 1 && |b| >= 1 && a[|a| - 1] != b[|b| - 1]
    ensures !EndsWith(s, b)
  {
    assert s[|s| - |a|..][|a| - 1] == s[|s| - 1];
    if |b| <= |s| {
      assert s[|s| - |b|..][|b| - 1] == s[|s| - 1];
    }
  }
}
