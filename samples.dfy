/**
 * Reductions over a diagnostic's history of measurements: the lowest and
 * highest measurement, and the mean of the lowest fraction of them.
 */
module Samples {
  import opened Wrappers
  import opened Numeric

  /** One measurement in a diagnostic's history; `f64` measurements may be NaN. */
  datatype Sample = Sample(x: real) | NaNSample

  /** `min()` over the non-NaN measurements. */
  function MinSample(h: seq<Sample>): (r: Option<real>)
    ensures r.None? <==> forall i :: 0 <= i < |h| ==> h[i].NaNSample?
    ensures r.Some? ==> exists i :: 0 <= i < |h| && h[i] == Sample(r.value)
    ensures r.Some? ==> forall i :: 0 <= i < |h| && h[i].Sample? ==> r.value <= h[i].x
  {
    if h == [] then None
    else
      var rest := MinSample(h[..|h| - 1]);
      var last := h[|h| - 1];
      assert forall i :: 0 <= i < |h| - 1 ==> h[..|h| - 1][i] == h[i];
      match (rest, last)
      case (None, NaNSample) => None
      case (None, Sample(x)) => Some(x)
      case (Some(m), NaNSample) => Some(m)
      case (Some(m), Sample(x)) => if x < m then Some(x) else Some(m)
  }

  /** `max()` over the non-NaN measurements. */
  function MaxSample(h: seq<Sample>): (r: Option<real>)
    ensures r.None? <==> forall i :: 0 <= i < |h| ==> h[i].NaNSample?
    ensures r.Some? ==> exists i :: 0 <= i < |h| && h[i] == Sample(r.value)
    ensures r.Some? ==> forall i :: 0 <= i < |h| && h[i].Sample? ==> h[i].x <= r.value
  {
    if h == [] then None
    else
      var rest := MaxSample(h[..|h| - 1]);
      var last := h[|h| - 1];
      assert forall i :: 0 <= i < |h| - 1 ==> h[..|h| - 1][i] == h[i];
      match (rest, last)
      case (None, NaNSample) => None
      case (None, Sample(x)) => Some(x)
      case (Some(m), NaNSample) => Some(m)
      case (Some(m), Sample(x)) => if x >= m then Some(x) else Some(m)
  }

  /** The non-NaN measurements, in order. */
  function Finite(h: seq<Sample>): (r: seq<real>)
    ensures |r| <= |h|
  {
    if h == [] then []
    else Finite(h[..|h| - 1]) + (match h[|h| - 1] case Sample(x) => [x] case NaNSample => [])
  }

  predicate SortedReals(s: seq<real>) {
    forall i, j :: 0 <= i < j < |s| ==> s[i] <= s[j]
  }

  function InsertReal(x: real, s: seq<real>): (r: seq<real>)
    ensures |r| == |s| + 1
  {
    if s == [] || x <= s[0] then [x] + s else [s[0]] + InsertReal(x, s[1..])
  }

  /** The measurements in ascending order. */
  function SortReals(s: seq<real>): (r: seq<real>)
    ensures |r| == |s|
  {
    if s == [] then [] else InsertReal(s[0], SortReals(s[1..]))
  }

  lemma {:induction false} InsertRealPerm(x: real, s: seq<real>)
    ensures multiset(InsertReal(x, s)) == multiset(s) + multiset{x}
  {
    if s != [] && x > s[0] {
      InsertRealPerm(x, s[1..]);
      assert s == [s[0]] + s[1..];
    }
  }

  /** A value not above any of an ascending sequence can go in front of it. */
  lemma SortedCons(a: real, r: seq<real>)
    requires SortedReals(r)
    requires forall j :: 0 <= j < |r| ==> a <= r[j]
    ensures SortedReals([a] + r)
  {
    forall i, j | 0 <= i < j < |r| + 1 ensures ([a] + r)[i] <= ([a] + r)[j] {
      if i > 0 {
        assert ([a] + r)[i] == r[i - 1];
      }
      assert ([a] + r)[j] == r[j - 1];
    }
  }

  /** The first element of an ascending sequence is at most every element. */
  lemma SortedHead(s: seq<real>, y: real)
    requires SortedReals(s) && y in multiset(s)
    ensures s[0] <= y
  {
    assert y in s;
    var k :| 0 <= k < |s| && s[k] == y;
    if k > 0 {
      assert s[0] <= s[k];
    }
  }

  lemma {:induction false} InsertRealSorted(x: real, s: seq<real>)
    requires SortedReals(s)
    ensures SortedReals(InsertReal(x, s))
  {
    if s == [] || x <= s[0] {
      forall j | 0 <= j < |s| ensures x <= s[j] {
        SortedHead(s, s[j]);
      }
      SortedCons(x, s);
    } else {
      var t := s[1..];
      assert SortedReals(t) by {
        forall i, j | 0 <= i < j < |t| ensures t[i] <= t[j] {
          assert t[i] == s[i + 1] && t[j] == s[j + 1];
        }
      }
      InsertRealSorted(x, t);
      InsertRealPerm(x, t);
      var r := InsertReal(x, t);
      forall j | 0 <= j < |r| ensures s[0] <= r[j] {
        assert r[j] in multiset(r);
        if r[j] != x {
          assert r[j] in multiset(t);
          assert s == [s[0]] + t;
          SortedHead(s, r[j]);
        }
      }
      SortedCons(s[0], r);
    }
  }

  lemma {:induction false} SortRealsSorted(s: seq<real>)
    ensures SortedReals(SortReals(s))
    ensures multiset(SortReals(s)) == multiset(s)
  {
    if s != [] {
      SortRealsSorted(s[1..]);
      InsertRealSorted(s[0], SortReals(s[1..]));
      InsertRealPerm(s[0], SortReals(s[1..]));
      assert s == [s[0]] + s[1..];
    }
  }

  /** Two ascending sequences of the same measurements are the same sequence. */
  lemma {:induction false} SortedUnique(s: seq<real>, t: seq<real>)
    requires SortedReals(s) && SortedReals(t)
    requires multiset(s) == multiset(t)
    ensures s == t
  {
    assert |s| == |multiset(s)| == |multiset(t)| == |t|;
    if s != [] {
      assert s[0] in multiset(t) && t[0] in multiset(s);
      SortedHead(t, s[0]);
      SortedHead(s, t[0]);
      SortedTail(s);
      SortedTail(t);
      assert s[0] == t[0];
      assert s == [s[0]] + s[1..] && t == [t[0]] + t[1..];
      assert multiset(s) == multiset([s[0]]) + multiset(s[1..]);
      assert multiset(t) == multiset([t[0]]) + multiset(t[1..]);
      assert multiset(s[1..]) == multiset(s) - multiset{s[0]};
      assert multiset(t[1..]) == multiset(t) - multiset{t[0]};
      SortedUnique(s[1..], t[1..]);
    }
  }

  lemma SortedTail(s: seq<real>)
    requires SortedReals(s) && s != []
    ensures SortedReals(s[1..])
  {
    forall i, j | 0 <= i < j < |s| - 1 ensures s[1..][i] <= s[1..][j] {
      assert s[1..][i] == s[i + 1] && s[1..][j] == s[j + 1];
    }
  }

  function Sum(s: seq<real>): real {
    if s == [] then 0.0 else Sum(s[..|s| - 1]) + s[|s| - 1]
  }

  /** `(n as f32 * fraction).ceil() as usize`: how many of the `n` values are averaged. */
  function BottomLen(n: nat, fraction: real): nat {
    CeilToNat(n as real * fraction)
  }

  /** The `k` lowest values (all of them when there are fewer), in ascending order. */
  function Lowest(vs: seq<real>, k: nat): (r: seq<real>)
    ensures |r| == if k < |vs| then k else |vs|
  {
    SortReals(vs)[..if k < |vs| then k else |vs|]
  }

  /**
   * The mean of the slowest frames: the lowest `ceil(n * fraction)` of
   * the `n` non-NaN frame rates, summed and divided by that count, even
   * when the count exceeds `n`; none when there is no frame rate or the
   * count is zero.
   */
  function PctLowValue(h: seq<Sample>, fraction: real): (r: Option<real>)
    ensures r.None? <==> |Finite(h)| == 0 || BottomLen(|Finite(h)|, fraction) == 0
  {
    var vs := Finite(h);
    var k := BottomLen(|vs|, fraction);
    if |vs| == 0 || k == 0 then None
    else Some(Sum(Lowest(vs, k)) / k as real)
  }

  /**
   * `PerfUiEntryFPSPctLow::update_value`: collects the non-NaN values,
   * sorts them in place and sums the lowest ones.
   */
  method PctLow(h: seq<Sample>, fraction: real) returns (r: Option<real>)
    ensures r == PctLowValue(h, fraction)
  {
    var values := CollectFinite(h);
    if |values| == 0 {
      return None;
    }
    var k := BottomLen(|values|, fraction);
    if k == 0 {
      return None;
    }
    var a := new real[|values|](i requires 0 <= i < |values| => values[i]);
    assert a[..] == values;
    SortUnstable(a);
    SortRealsSorted(values);
    SortedUnique(a[..], SortReals(values));
    var sum := SumFirst(a, k);
    r := Some(sum / k as real);
  }

  /** The non-NaN measurements, collected in order. */
  method CollectFinite(h: seq<Sample>) returns (values: seq<real>)
    ensures values == Finite(h)
  {
    values := [];
    for i := 0 to |h|
      invariant values == Finite(h[..i])
    {
      assert h[..i + 1][..i] == h[..i];
      if h[i].Sample? {
        values := values + [h[i].x];
      }
    }
    assert h[..|h|] == h;
  }

  /** `into_iter().take(k).sum()`: the sum of the first `k` elements, or of all when there are fewer. */
  method SumFirst(a: array<real>, k: nat) returns (sum: real)
    ensures sum == Sum(a[..if k < a.Length then k else a.Length])
  {
    sum := 0.0;
    var i := 0;
    while i < k && i < a.Length
      invariant 0 <= i <= a.Length && i <= k
      invariant sum == Sum(a[..i])
    {
      assert a[..i + 1][..i] == a[..i];
      sum := sum + a[i];
      i := i + 1;
    }
  }

  /** `sort_unstable` on the collected values: ascending, same values. */
  method SortUnstable(a: array<real>)
    modifies a
    ensures SortedReals(a[..])
    ensures multiset(a[..]) == multiset(old(a[..]))
  {
    ghost var s0 := a[..];
    for i := 0 to a.Length
      invariant SortedReals(a[..i])
      invariant multiset(a[..i]) == multiset(s0[..i])
      invariant forall m :: i <= m < a.Length ==> a[m] == s0[m]
    {
      ghost var sorted := a[..i];
      ghost var x := a[i];
      var j := SiftDown(a, i);
      ShiftLands(a[..i + 1], sorted, x, j);
      assert s0[..i + 1] == s0[..i] + [s0[i]];
    }
    assert a[..a.Length] == a[..] && s0[..a.Length] == s0;
  }

  /**
   * Moves `a[i]` down past the greater values before it, shifting them
   * up by one; `j` is where it lands.
   */
  method SiftDown(a: array<real>, i: nat) returns (j: nat)
    requires i < a.Length
    modifies a
    ensures j <= i
    ensures forall m :: 0 <= m < j ==> a[m] == old(a[m])
    ensures a[j] == old(a[i])
    ensures forall m :: j < m <= i ==> a[m] == old(a[m - 1])
    ensures j > 0 ==> old(a[j - 1]) <= old(a[i])
    ensures forall m :: j <= m < i ==> old(a[m]) > old(a[i])
    ensures forall m :: i < m < a.Length ==> a[m] == old(a[m])
  {
    var x := a[i];
    j := i;
    while j > 0 && a[j - 1] > x
      invariant 0 <= j <= i
      invariant forall m :: 0 <= m < j ==> a[m] == old(a[m])
      invariant forall m :: j < m <= i ==> a[m] == old(a[m - 1])
      invariant forall m :: j <= m < i ==> old(a[m]) > x
      invariant forall m :: i < m < a.Length ==> a[m] == old(a[m])
    {
      a[j] := a[j - 1];
      j := j - 1;
    }
    a[j] := x;
  }

  /**
   * The prefix the shifting step leaves: the values up to `j`, then `x`,
   * then the greater values moved up by one; ascending, with `x` added.
   */
  lemma ShiftLands(t: seq<real>, sorted: seq<real>, x: real, j: nat)
    requires SortedReals(sorted) && j <= |sorted| && |t| == |sorted| + 1
    requires forall m :: 0 <= m < j ==> t[m] == sorted[m]
    requires t[j] == x
    requires forall m :: j < m < |t| ==> t[m] == sorted[m - 1]
    requires j > 0 ==> sorted[j - 1] <= x
    requires forall m :: j <= m < |sorted| ==> sorted[m] > x
    ensures SortedReals(t)
    ensures multiset(t) == multiset(sorted) + multiset{x}
  {
    ShiftSorted(t, sorted, x, j);
    ShiftPerm(t, sorted, x, j);
  }

  /** The content half of `ShiftLands`: `x` inserted at `j`. */
  lemma ShiftPerm(t: seq<real>, sorted: seq<real>, x: real, j: nat)
    requires j <= |sorted| && |t| == |sorted| + 1
    requires forall m :: 0 <= m < j ==> t[m] == sorted[m]
    requires t[j] == x
    requires forall m :: j < m < |t| ==> t[m] == sorted[m - 1]
    ensures multiset(t) == multiset(sorted) + multiset{x}
  {
    var a, b := sorted[..j], sorted[j..];
    forall m | 0 <= m < |t| ensures t[m] == (a + [x] + b)[m] {
      if m > j {
        assert (a + [x] + b)[m] == b[m - j - 1];
      }
    }
    assert t == a + [x] + b;
    assert sorted == a + b;
  }

  /** The order half of `ShiftLands`. */
  lemma ShiftSorted(t: seq<real>, sorted: seq<real>, x: real, j: nat)
    requires SortedReals(sorted) && j <= |sorted| && |t| == |sorted| + 1
    requires forall m :: 0 <= m < j ==> t[m] == sorted[m]
    requires t[j] == x
    requires forall m :: j < m < |t| ==> t[m] == sorted[m - 1]
    requires j > 0 ==> sorted[j - 1] <= x
    requires forall m :: j <= m < |sorted| ==> sorted[m] > x
    ensures SortedReals(t)
  {
    forall p, q | 0 <= p < q < |t| ensures t[p] <= t[q] {
      if q < j {
      } else if q == j {
        if p < j { assert sorted[p] <= sorted[j - 1]; }
      } else if p < j {
        assert sorted[p] <= sorted[q - 1];
      } else if p > j {
        assert sorted[p - 1] <= sorted[q - 1];
      }
    }
  }

  /**
   * When the fraction keeps at least one value and no more than there
   * are, the mean of the slowest frames lies between the worst frame
   * rate and the highest rate among the kept ones; in particular it is
   * never below what `FPS (worst)` shows.
   */
  lemma PctLowAtLeastWorst(h: seq<Sample>, fraction: real)
    requires 1 <= BottomLen(|Finite(h)|, fraction) <= |Finite(h)|
    ensures var k := BottomLen(|Finite(h)|, fraction);
      && PctLowValue(h, fraction).Some? && MinSample(h).Some?
      && MinSample(h).value <= PctLowValue(h, fraction).value <= SortReals(Finite(h))[k - 1]
  {
    var vs := Finite(h);
    var k := BottomLen(|vs|, fraction);
    var s := SortReals(vs);
    MinBelowSorted(h);
    SortRealsSorted(vs);
    assert Lowest(vs, k) == s[..k];
    MeanOfSortedPrefix(s, k);
  }

  /**
   * A fraction that asks for more values than there are averages all of
   * them but still divides by the requested count.
   */
  lemma PctLowBeyondCount(h: seq<Sample>, fraction: real)
    requires 1 <= |Finite(h)| < BottomLen(|Finite(h)|, fraction)
    ensures var k := BottomLen(|Finite(h)|, fraction);
      PctLowValue(h, fraction) == Some(Sum(SortReals(Finite(h))) / k as real)
  {
    var s := SortReals(Finite(h));
    assert s[..|s|] == s;
  }

  /** The mean of the first `k` values of an ascending sequence lies between its first and its `k`-th value. */
  lemma MeanOfSortedPrefix(s: seq<real>, k: nat)
    requires SortedReals(s) && 1 <= k <= |s|
    ensures s[0] <= Sum(s[..k]) / k as real <= s[k - 1]
  {
    forall j | 0 <= j < k ensures s[0] <= s[..k][j] <= s[k - 1] {
      assert s[..k][j] == s[j];
    }
    SumBounds(s[..k], s[0], s[k - 1]);
    MeanBounds(Sum(s[..k]), k, s[0], s[k - 1]);
  }

  /** The worst frame rate is at or below every sorted value. */
  lemma MinBelowSorted(h: seq<Sample>)
    requires |Finite(h)| > 0
    ensures MinSample(h).Some?
    ensures forall j :: 0 <= j < |Finite(h)| ==> MinSample(h).value <= SortReals(Finite(h))[j]
  {
    var vs := Finite(h);
    SortRealsSorted(vs);
    var s := SortReals(vs);
    assert s[0] in multiset(vs);
    MinBelowMember(h, s[0]);
    forall j | 0 <= j < |s| ensures MinSample(h).value <= s[j] {
      assert s[j] in multiset(vs);
      MinBelowMember(h, s[j]);
    }
  }

  /** The worst frame rate is at or below every kept value. */
  lemma MinBelowMember(h: seq<Sample>, y: real)
    requires y in multiset(Finite(h))
    ensures MinSample(h).Some? && MinSample(h).value <= y
  {
    FiniteMembers(h);
  }

  lemma MeanBounds(sum: real, k: nat, lo: real, hi: real)
    requires k >= 1 && k as real * lo <= sum <= k as real * hi
    ensures lo <= sum / k as real <= hi
  {
  }

  /** Every kept value is a non-NaN measurement, and the other way round. */
  lemma {:induction false} FiniteMembers(h: seq<Sample>)
    ensures forall x :: x in multiset(Finite(h)) <==> exists i :: 0 <= i < |h| && h[i] == Sample(x)
  {
    if h != [] {
      FiniteMembers(h[..|h| - 1]);
      assert forall i :: 0 <= i < |h| - 1 ==> h[..|h| - 1][i] == h[i];
    }
  }

  lemma {:induction false} FiniteNonEmpty(h: seq<Sample>)
    ensures |Finite(h)| > 0 <==> exists i :: 0 <= i < |h| && h[i].Sample?
  {
    if h != [] {
      FiniteNonEmpty(h[..|h| - 1]);
      assert forall i :: 0 <= i < |h| - 1 ==> h[..|h| - 1][i] == h[i];
    }
  }

  /** A sum of values between `lo` and `hi` lies between `|s| * lo` and `|s| * hi`. */
  lemma {:induction false} SumBounds(s: seq<real>, lo: real, hi: real)
    requires forall i :: 0 <= i < |s| ==> lo <= s[i] <= hi
    ensures |s| as real * lo <= Sum(s) <= |s| as real * hi
  {
    if s != [] {
      var n := (|s| - 1) as real;
      SumBounds(s[..|s| - 1], lo, hi);
      assert |s| as real * lo == n * lo + lo;
      assert |s| as real * hi == n * hi + hi;
    }
  }
}
