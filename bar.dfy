/**
 * The bar widget: an entry shown as a horizontal bar filled in
 * proportion to where its value lies in a range, with the value
 * optionally written inside or beside the bar. The range comes from the
 * bar's colour gradient and the entry's range hints.
 */
module Bar {
  import opened Wrappers
  import opened Numeric
  import opened Colors
  import opened Text
  import opened World
  import opened Entry
  import opened Root
  import opened Widget

  /** Where the value text goes; `NoText` spawns no text node at all. */
  datatype BarTextPosition = NoText | TextCenter | TextStart | TextEnd | OutsideStart | OutsideEnd

  /** Which way the bar fills up. */
  datatype BarFillDirection = FillLeft | FillCenter | FillRight

  /**
   * `PerfUiWidgetBar<E>`, with the settings that the update reads.
   * `toF64` is the entry value's conversion to `f64` (`NumCast`), which
   * may fail.
   */
  datatype PerfUiWidgetBar<!C, !V> = PerfUiWidgetBar(
    textPosition: BarTextPosition,
    textColorOverride: Option<Color>,
    fillDirection: BarFillDirection,
    barColor: ColorGradient,
    entry: RangeEntry<C, V>,
    toF64: V -> Option<real>)

  /** The sort key of a bar row is its entry's. */
  function BarChange<C, V>(root: Entity, bar: PerfUiWidgetBar<C, V>): (c: Change)
    ensures c.root == root && c.sortKey == bar.entry.entry.sortKey
  {
    Change(root, bar.entry.entry.sortKey)
  }

  /** A value range `lo ..= hi` the bar spans. */
  datatype Span = Span(lo: real, hi: real)

  /** `f64::min` and `f64::max` on non-NaN values. */
  function Min(a: real, b: real): real {
    if a <= b then a else b
  }

  function Max(a: real, b: real): real {
    if a >= b then a else b
  }

  /**
   * `get_range` on the gradient's lowest and highest stop and the
   * entry's converted hints. When the stops coincide (a single stop, or
   * none) only the hints count; otherwise each end is the wider of the
   * stop and the hint on that side, or whichever is present.
   */
  function GetRange(gMin: Option<real>, gMax: Option<real>, hMin: Option<real>, hMax: Option<real>): (r: Option<Span>)
    ensures gMin == gMax ==> (r.Some? <==> hMin.Some? && hMax.Some?)
    ensures gMin == gMax && r.Some? ==> r.value == Span(hMin.value, hMax.value)
    ensures gMin != gMax ==> (r.Some? <==> (gMin.Some? || hMin.Some?) && (gMax.Some? || hMax.Some?))
    ensures gMin != gMax && r.Some? ==>
      && (gMin.Some? ==> r.value.lo <= gMin.value) && (hMin.Some? ==> r.value.lo <= hMin.value)
      && (Some(r.value.lo) in {gMin, hMin})
      && (gMax.Some? ==> r.value.hi >= gMax.value) && (hMax.Some? ==> r.value.hi >= hMax.value)
      && (Some(r.value.hi) in {gMax, hMax})
  {
    if gMin == gMax then
      if hMin.Some? && hMax.Some? then Some(Span(hMin.value, hMax.value)) else None
    else
      var lo := match (gMin, hMin)
        case (Some(g), Some(h)) => Some(Min(g, h))
        case (Some(g), None) => Some(g)
        case (None, h) => h;
      var hi := match (gMax, hMax)
        case (Some(g), Some(h)) => Some(Max(g, h))
        case (Some(g), None) => Some(g)
        case (None, h) => h;
      if lo.Some? && hi.Some? then Some(Span(lo.value, hi.value)) else None
  }

  /** The range of a bar: its gradient's stops and its entry's hints, the hints converted to `f64`. */
  function BarRange<C, V>(bar: PerfUiWidgetBar<C, V>): (r: Option<Span>)
    ensures bar.barColor.minStop == bar.barColor.maxStop ==>
      (r.Some? <==>
        && bar.entry.minValueHint.Some? && bar.toF64(bar.entry.minValueHint.value).Some?
        && bar.entry.maxValueHint.Some? && bar.toF64(bar.entry.maxValueHint.value).Some?)
    ensures bar.barColor.minStop.None? && (bar.entry.minValueHint.None? || bar.toF64(bar.entry.minValueHint.value).None?) ==> r.None?
  {
    var hMin := match bar.entry.minValueHint case Some(v) => bar.toF64(v) case None => None;
    var hMax := match bar.entry.maxValueHint case Some(v) => bar.toF64(v) case None => None;
    GetRange(bar.barColor.minStop, bar.barColor.maxStop, hMin, hMax)
  }

  /** A percentage as the `f64` arithmetic leaves it: a number, or NaN. */
  datatype Percent = Percent(p: real) | NaN

  function Clamp01(x: real): real {
    if x < 0.0 then 0.0 else if x > 1.0 then 1.0 else x
  }

  /**
   * How full the bar is, `((v - lo) / (hi - lo)).clamp(0, 1) * 100`. In
   * `f64` a zero-width range divides by zero: the fraction is +inf above
   * it, -inf below it and NaN at it, and `clamp` keeps NaN.
   */
  function FillPct(v: real, range: Span): (r: Percent)
    ensures r.NaN? <==> range.lo == range.hi == v
    ensures r.Percent? ==> 0.0 <= r.p <= 100.0
    ensures range.lo < range.hi ==>
      && (v <= range.lo ==> r == Percent(0.0))
      && (v >= range.hi ==> r == Percent(100.0))
      && (range.lo < v < range.hi ==> r.p * (range.hi - range.lo) == 100.0 * (v - range.lo))
    ensures range.hi < range.lo ==>
      && (v >= range.lo ==> r == Percent(0.0))
      && (v <= range.hi ==> r == Percent(100.0))
      && (range.hi < v < range.lo ==> r.p * (range.hi - range.lo) == 100.0 * (v - range.lo))
    ensures range.lo == range.hi ==>
      && (v > range.lo ==> r == Percent(100.0))
      && (v < range.lo ==> r == Percent(0.0))
  {
    var lo, hi := range.lo, range.hi;
    if lo == hi then
      if v > lo then Percent(100.0) else if v < lo then Percent(0.0) else NaN
    else
      var f := (v - lo) / (hi - lo);
      FractionFacts(v, lo, hi);
      FractionReversed(v, lo, hi);
      assert (lo < v < hi || hi < v < lo) ==> Clamp01(f) * 100.0 * (hi - lo) == 100.0 * (f * (hi - lo));
      Percent(Clamp01(f) * 100.0)
  }

  /** Where `(v - lo) / (hi - lo)` lies relative to 0 and 1. */
  lemma FractionFacts(v: real, lo: real, hi: real)
    requires lo != hi
    ensures var f := (v - lo) / (hi - lo);
      && (hi < lo && v >= lo ==> f <= 0.0)
      && (hi < lo && v <= hi ==> f >= 1.0)
      && (lo < hi && v <= lo ==> f <= 0.0)
      && (lo < hi && v >= hi ==> f >= 1.0)
      && (lo < hi && lo < v < hi ==> 0.0 <= f <= 1.0 && f * (hi - lo) == v - lo)
  {
    if hi < lo && v >= lo {
      QuotientSign(v - lo, hi - lo);
    } else if hi < lo && v <= hi {
      QuotientAtLeastOne(v - lo, hi - lo);
    } else if lo < hi && v <= lo {
      QuotientSign(v - lo, hi - lo);
    } else if lo < hi && v >= hi {
      QuotientAtLeastOne(v - lo, hi - lo);
    } else if lo < hi && lo < v < hi {
      QuotientSign(v - lo, hi - lo);
      QuotientBelowOne(v - lo, hi - lo);
    }
  }

  /** Inside a decreasing range, `(v - lo) / (hi - lo)` is a fraction that scales back to `v - lo`. */
  lemma FractionReversed(v: real, lo: real, hi: real)
    ensures hi < v < lo ==> var f := (v - lo) / (hi - lo); 0.0 <= f <= 1.0 && f * (hi - lo) == v - lo
  {
    if hi < v < lo {
      var a, b := lo - v, lo - hi;
      assert (v - lo) / (hi - lo) == a / b;
      QuotientBelowOne(a, b);
    }
  }

  /** A quotient of numbers of opposite signs is not positive; of equal signs, not negative. */
  lemma QuotientSign(a: real, b: real)
    requires b != 0.0
    ensures (a >= 0.0) == (b > 0.0) ==> a / b >= 0.0
    ensures (a <= 0.0) == (b > 0.0) ==> a / b <= 0.0
  {
  }

  /** `a / b >= 1` when `a` is at least as far from zero as `b`, on the same side. */
  lemma QuotientAtLeastOne(a: real, b: real)
    requires (0.0 < b <= a) || (a <= b < 0.0)
    ensures a / b >= 1.0
  {
  }

  lemma QuotientBelowOne(a: real, b: real)
    requires 0.0 <= a < b
    ensures a / b < 1.0 && (a / b) * b == a
  {
  }

  /** Over an increasing range, a greater value never fills the bar less. */
  lemma FillPctMonotone(v1: real, v2: real, range: Span)
    requires range.lo < range.hi && v1 <= v2
    ensures FillPct(v1, range).p <= FillPct(v2, range).p
  {
    var w := range.hi - range.lo;
    var f1, f2 := (v1 - range.lo) / w, (v2 - range.lo) / w;
    assert f2 - f1 == (v2 - v1) / w;
    QuotientSign(v2 - v1, w);
  }

  /** The insets of the inner bar, as percentages of the bar's width. */
  datatype Insets = Insets(left: Percent, right: Percent)

  function Remaining(p: Percent): Percent {
    match p
    case Percent(x) => Percent(100.0 - x)
    case NaN => NaN
  }

  function Halved(p: Percent): Percent {
    match p
    case Percent(x) => Percent(x / 2.0)
    case NaN => NaN
  }

  /**
   * Where the filled part sits: flush left, flush right, or centred, the
   * unfilled `100 - pct` going to the free side or split between both.
   */
  function FillInsets(dir: BarFillDirection, pct: Percent): (r: Insets)
    ensures pct.Percent? ==> r.left.Percent? && r.right.Percent? && r.left.p + r.right.p == 100.0 - pct.p
    ensures pct.Percent? && 0.0 <= pct.p <= 100.0 ==> 0.0 <= r.left.p && 0.0 <= r.right.p
    ensures dir == FillLeft ==> r.left == Percent(0.0) && (r.right.NaN? <==> pct.NaN?)
    ensures dir == FillRight ==> r.right == Percent(0.0) && (r.left.NaN? <==> pct.NaN?)
    ensures dir == FillCenter ==> r.left == r.right && (r.left.NaN? <==> pct.NaN?)
  {
    match dir
    case FillLeft => Insets(Percent(0.0), Remaining(pct))
    case FillRight => Insets(Remaining(pct), Percent(0.0))
    case FillCenter => Insets(Halved(Remaining(pct)), Halved(Remaining(pct)))
  }

  /** The insets of a bar that cannot be filled: empty. */
  const EMPTY_BAR: Insets := Insets(Percent(0.0), Percent(100.0))

  /** The fetched value converted to `f64`, if both succeed. */
  function BarValue<C, V>(bar: PerfUiWidgetBar<C, V>, ctx: C): Option<real> {
    match bar.entry.entry.updateValue(ctx)
    case Some(v) => bar.toF64(v)
    case None => None
  }

  /** The inner bar's insets for this tick: filled when there is a value and a range, empty otherwise. */
  function BarInsets<C, V>(bar: PerfUiWidgetBar<C, V>, ctx: C): (r: Insets)
    ensures BarValue(bar, ctx).None? || BarRange(bar).None? ==> r == EMPTY_BAR
    ensures r.left.Percent? && r.right.Percent? ==> 0.0 <= r.left.p <= 100.0 && 0.0 <= r.right.p <= 100.0
  {
    match (BarValue(bar, ctx), BarRange(bar))
    case (Some(v), Some(range)) => FillInsets(bar.fillDirection, FillPct(v, range))
    case _ => EMPTY_BAR
  }

  /**
   * The value text of a bar: like a plain row's, but trimmed of
   * surrounding whitespace.
   */
  function BarText<C, V(!new)>(root: PerfUiRoot, bar: PerfUiWidgetBar<C, V>, ctx: C): (t: TextView)
    ensures bar.entry.entry.updateValue(ctx).None? ==> t == TextView(Trim(root.textErr), root.errColor, root.fontValue)
    ensures bar.entry.entry.updateValue(ctx).Some? ==>
      var v := bar.entry.entry.updateValue(ctx).value;
      && t.text == Trim(bar.entry.entry.formatValue(v))
      && t.color == bar.entry.entry.valueColor(v).GetOr(root.defaultValueColor)
      && t.font == (if bar.entry.entry.valueHighlight(v) then root.fontHighlight else root.fontValue)
  {
    var e := bar.entry.entry;
    match e.updateValue(ctx)
    case None => TextView(Trim(root.textErr), root.errColor, root.fontValue)
    case Some(v) =>
      TextView(Trim(e.formatValue(v)), e.valueColor(v).GetOr(root.defaultValueColor),
               if e.valueHighlight(v) then root.fontHighlight else root.fontValue)
  }

  /**
   * A bar shows the same value text, colour and font as the plain row
   * of the same entry, only trimmed; so padded formats (the fixed-width
   * numbers) lose their alignment spaces in a bar.
   */
  lemma BarTextIsTrimmedRow<C, V(!new)>(root: PerfUiRoot, bar: PerfUiWidgetBar<C, V>, ctx: C)
    ensures var row := RowView(Member(root, bar.entry.entry), ctx);
      BarText(root, bar, ctx) == TextView(Trim(row.text), row.color, row.font)
  {
  }

  /** Right-aligning a bar's text and trimming it again gives the same text. */
  lemma BarTextPaddingFree<C, V(!new)>(root: PerfUiRoot, bar: PerfUiWidgetBar<C, V>, ctx: C, w: nat)
    ensures Trim(PadLeft(BarText(root, bar, ctx).text, w)) == BarText(root, bar, ctx).text
  {
    var t := BarText(root, bar, ctx).text;
    var s := if bar.entry.entry.updateValue(ctx).Some? then bar.entry.entry.formatValue(bar.entry.entry.updateValue(ctx).value) else root.textErr;
    assert t == Trim(s);
    TrimPadLeft(t, w);
    TrimIdempotent(s);
  }

  /**
   * The components one bar widget's update writes: the widget's
   * background, the inner bar's colour and insets, and, when the bar has
   * a text node, that node's text, colour and font.
   */
  class BarParts {
    var background: Color
    var barColor: Color
    var insets: Insets
    const hasText: bool
    var text: string
    var textColor: Color
    var font: FontHandle

    /** The parts as the widget is spawned: an empty, colourless bar and the untrimmed error text. */
    constructor (root: PerfUiRoot, textPosition: BarTextPosition, textColorOverride: Option<Color>)
      ensures background == root.innerBackgroundColor
      ensures barColor == NONE && insets == EMPTY_BAR
      ensures hasText <==> textPosition != NoText
      ensures text == root.textErr && font == root.fontValue
      ensures textColor == textColorOverride.GetOr(root.errColor)
    {
      background := root.innerBackgroundColor;
      barColor := NONE;
      insets := EMPTY_BAR;
      hasText := textPosition != NoText;
      text := root.textErr;
      font := root.fontValue;
      textColor := textColorOverride.GetOr(root.errColor);
    }

    /**
     * One tick: the background follows the row highlight; the bar colour
     * is set from the gradient only when there is a convertible value;
     * the insets are recomputed; the text and font are set, and the text
     * colour too unless the bar overrides it.
     */
    method Update<C, V(!new)>(root: PerfUiRoot, bar: PerfUiWidgetBar<C, V>, ctx: C)
      modifies this
      ensures background == (if RowHighlighted(bar.entry.entry, ctx) then root.innerBackgroundColorHighlight else root.innerBackgroundColor)
      ensures barColor == match BarValue(bar, ctx)
        case Some(v) => bar.barColor.colorFor(v).GetOr(NONE)
        case None => old(barColor)
      ensures insets == BarInsets(bar, ctx)
      ensures hasText ==> text == BarText(root, bar, ctx).text && font == BarText(root, bar, ctx).font
      ensures hasText && bar.textColorOverride.None? ==> textColor == BarText(root, bar, ctx).color
      ensures !hasText || bar.textColorOverride.Some? ==> textColor == old(textColor)
      ensures !hasText ==> text == old(text) && font == old(font)
    {
      var value := bar.entry.entry.updateValue(ctx);
      var highlight := match value case Some(v) => bar.entry.entry.valueHighlight(v) case None => false;
      if highlight {
        background := root.innerBackgroundColorHighlight;
      } else {
        background := root.innerBackgroundColor;
      }

      var converted := match value case Some(v) => bar.toF64(v) case None => None;
      if converted.Some? {
        barColor := bar.barColor.colorFor(converted.value).GetOr(NONE);
      }
      var range := BarRange(bar);
      if converted.Some? && range.Some? {
        insets := FillInsets(bar.fillDirection, FillPct(converted.value, range.value));
      } else {
        insets := EMPTY_BAR;
      }

      if hasText {
        if value.Some? {
          var v := value.value;
          text := Trim(bar.entry.entry.formatValue(v));
          font := if highlight then root.fontHighlight else root.fontValue;
          if bar.textColorOverride.None? {
            textColor := bar.entry.entry.valueColor(v).GetOr(root.defaultValueColor);
          }
        } else {
          text := Trim(root.textErr);
          font := root.fontValue;
          if bar.textColorOverride.None? {
            textColor := root.errColor;
          }
        }
      }
    }
  }
}
