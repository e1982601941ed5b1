/**
 * The older revision of the diagnostics entries: each entry carries
 * `enable_color` and `enable_highlight` switches, three colouring
 * thresholds fed to the red-yellow-green gradients instead of a
 * gradient value, and an always-present highlight threshold compared
 * inclusively (`<=` for frame rates, `>=` for the rest).
 */
module LegacyDiagnostics {
  import opened Wrappers
  import opened Numeric
  import opened Colors
  import opened Utils
  import opened Samples
  import opened Text
  import D = DiagnosticEntries

  datatype LegacyEntry =
    | FPS(labelText: string, enableColor: bool, enableHighlight: bool,
          thresholdBad: real, thresholdNormal: real, thresholdGood: real, thresholdHighlight: real,
          smoothed: bool, digits: U8, precision: U8, sortKey: I32)
    | FPSWorst(labelText: string, enableColor: bool, enableHighlight: bool,
               thresholdBad: real, thresholdNormal: real, thresholdGood: real, thresholdHighlight: real,
               digits: U8, precision: U8, sortKey: I32)
    | FrameTime(labelText: string, enableColor: bool, enableHighlight: bool, displayUnits: bool,
                thresholdBad: real, thresholdNormal: real, thresholdGood: real, thresholdHighlight: real,
                smoothed: bool, digits: U8, precision: U8, sortKey: I32)
    | FrameTimeWorst(labelText: string, enableColor: bool, enableHighlight: bool, displayUnits: bool,
                     thresholdBad: real, thresholdNormal: real, thresholdGood: real, thresholdHighlight: real,
                     digits: U8, precision: U8, sortKey: I32)
    | FrameCount(labelText: string, digits: U8, sortKey: I32)
    | EntityCount(labelText: string, enableColor: bool, enableHighlight: bool,
                  countHigh: U32, countNormal: U32, countLow: U32, countHighlight: U32,
                  digits: U8, sortKey: I32)
    | CpuUsage(labelText: string, enableColor: bool, enableHighlight: bool,
               thresholdHigh: real, thresholdNormal: real, thresholdLow: real, thresholdHighlight: real,
               smoothed: bool, precision: U8, sortKey: I32)
    | MemUsage(labelText: string, enableColor: bool, enableHighlight: bool,
               thresholdHigh: real, thresholdNormal: real, thresholdLow: real, thresholdHighlight: real,
               smoothed: bool, precision: U8, sortKey: I32)

  function DefaultLabel(e: LegacyEntry): string {
    match e
    case FPS(_, _, _, _, _, _, _, _, _, _, _) => "FPS"
    case FPSWorst(_, _, _, _, _, _, _, _, _, _) => "FPS (min)"
    case FrameTime(_, _, _, _, _, _, _, _, _, _, _, _) => "Frame Time"
    case FrameTimeWorst(_, _, _, _, _, _, _, _, _, _, _) => "Frame Time (max)"
    case FrameCount(_, _, _) => "Frame Count"
    case EntityCount(_, _, _, _, _, _, _, _, _) => "Entity Count"
    case CpuUsage(_, _, _, _, _, _, _, _, _, _) => "Total CPU Usage"
    case MemUsage(_, _, _, _, _, _, _, _, _, _) => "Total RAM Usage"
  }

  /** The custom label when one is set, else the entry type's own. */
  function Label(e: LegacyEntry): (l: string)
    ensures e.labelText != [] ==> l == e.labelText
    ensures e.labelText == [] ==> l == DefaultLabel(e)
    ensures l != []
  {
    if e.labelText == [] then DefaultLabel(e) else e.labelText
  }

  /** `update_value`: the same diagnostics as the current revision, with the older system-wide CPU and memory paths. */
  function UpdateValue(e: LegacyEntry, store: D.DiagnosticsStore): (r: Option<real>)
    ensures e.FPSWorst? ==> r == MinSample(D.History(store, D.FPS_PATH))
    ensures e.FrameTimeWorst? ==> r == MaxSample(D.History(store, D.FRAME_TIME_PATH))
    ensures e.FPS? ==> r == D.Reading(store, D.FPS_PATH, e.smoothed)
    ensures e.FrameTime? ==> r == D.Reading(store, D.FRAME_TIME_PATH, e.smoothed)
    ensures e.CpuUsage? ==> r == D.Reading(store, D.SYSTEM_CPU_USAGE_PATH, e.smoothed)
    ensures e.MemUsage? ==> r == D.Reading(store, D.SYSTEM_MEM_USAGE_PATH, e.smoothed)
    ensures e.FrameCount? ==> r == D.Count(store, D.FRAME_COUNT_PATH)
    ensures e.EntityCount? ==> r == D.Count(store, D.ENTITY_COUNT_PATH)
  {
    match e
    case FPS(_, _, _, _, _, _, _, smoothed, _, _, _) => D.Reading(store, D.FPS_PATH, smoothed)
    case FPSWorst(_, _, _, _, _, _, _, _, _, _) =>
      if D.FPS_PATH in store then MinSample(store[D.FPS_PATH].history) else None
    case FrameTime(_, _, _, _, _, _, _, _, smoothed, _, _, _) => D.Reading(store, D.FRAME_TIME_PATH, smoothed)
    case FrameTimeWorst(_, _, _, _, _, _, _, _, _, _, _) =>
      if D.FRAME_TIME_PATH in store then MaxSample(store[D.FRAME_TIME_PATH].history) else None
    case FrameCount(_, _, _) => D.Count(store, D.FRAME_COUNT_PATH)
    case EntityCount(_, _, _, _, _, _, _, _, _) => D.Count(store, D.ENTITY_COUNT_PATH)
    case CpuUsage(_, _, _, _, _, _, _, smoothed, _, _) => D.Reading(store, D.SYSTEM_CPU_USAGE_PATH, smoothed)
    case MemUsage(_, _, _, _, _, _, _, smoothed, _, _) => D.Reading(store, D.SYSTEM_MEM_USAGE_PATH, smoothed)
  }

  /**
   * The worst frame rate is one of the recorded rates, and no recorded
   * rate is below it; there is none only when every sample is NaN.
   */
  lemma WorstIsRecordedMinimum(e: LegacyEntry, store: D.DiagnosticsStore)
    requires e.FPSWorst? && D.FPS_PATH in store
    ensures var h := store[D.FPS_PATH].history;
      && (UpdateValue(e, store).None? <==> forall i :: 0 <= i < |h| ==> h[i].NaNSample?)
      && (UpdateValue(e, store).Some? ==>
            && (exists i :: 0 <= i < |h| && h[i] == Sample(UpdateValue(e, store).value))
            && (forall i :: 0 <= i < |h| && h[i].Sample? ==> UpdateValue(e, store).value <= h[i].x))
  {
    assert D.History(store, D.FPS_PATH) == store[D.FPS_PATH].history;
  }

  /** `format_value` for each entry type. */
  function FormatValue(e: LegacyEntry, v: real): string {
    match e
    case FPS(_, _, _, _, _, _, _, _, digits, precision, _) => FormatPrettyFloatAsWritten(digits, precision, v)
    case FPSWorst(_, _, _, _, _, _, _, digits, precision, _) => FormatPrettyFloatAsWritten(digits, precision, v)
    case FrameTime(_, _, _, units, _, _, _, _, _, digits, precision, _) => D.FormatMillis(units, digits, precision, v)
    case FrameTimeWorst(_, _, _, units, _, _, _, _, digits, precision, _) => D.FormatMillis(units, digits, precision, v)
    case FrameCount(_, digits, _) => FormatPrettyIntAsWritten(digits, D.CountAsI64(v))
    case EntityCount(_, _, _, _, _, _, _, digits, _) => FormatPrettyIntAsWritten(digits, D.CountAsI64(v))
    case CpuUsage(_, _, _, _, _, _, _, _, precision, _) => D.FormatPercent(precision, v)
    case MemUsage(_, _, _, _, _, _, _, _, precision, _) => D.FormatPercent(precision, v)
  }

  /** Frame-rate entries flag low values; the others flag high ones. */
  predicate LowIsBad(e: LegacyEntry) {
    e.FPS? || e.FPSWorst?
  }

  /** The highlight threshold; frame counts have none. */
  function Threshold(e: LegacyEntry): (t: Option<real>)
    ensures t.None? <==> e.FrameCount?
  {
    match e
    case FrameCount(_, _, _) => None
    case EntityCount(_, _, _, _, _, _, t, _, _) => Some(t as real)
    case FPS(_, _, _, _, _, _, t, _, _, _, _) => Some(t)
    case FPSWorst(_, _, _, _, _, _, t, _, _, _) => Some(t)
    case FrameTime(_, _, _, _, _, _, _, t, _, _, _, _) => Some(t)
    case FrameTimeWorst(_, _, _, _, _, _, _, t, _, _, _) => Some(t)
    case CpuUsage(_, _, _, _, _, _, t, _, _, _) => Some(t)
    case MemUsage(_, _, _, _, _, _, t, _, _, _) => Some(t)
  }

  /**
   * `value_color`: nothing (the default colour) when colouring is off or
   * for the frame count; otherwise the falling gradient over
   * bad/normal/good for frame rates, and the rising gradient for the
   * others, over good/normal/bad for frame times and low/normal/high for
   * the rest.
   */
  function ValueColor(e: LegacyEntry, v: real): (c: Option<Color>)
    ensures c.None? <==> e.FrameCount? || !e.enableColor
    ensures c.Some? && LowIsBad(e) ==> c.value == RygGradientDown(e.thresholdBad, e.thresholdNormal, e.thresholdGood, v)
    ensures c.Some? && (e.FrameTime? || e.FrameTimeWorst?) ==>
      c.value == RygGradientUp(e.thresholdGood, e.thresholdNormal, e.thresholdBad, v)
    ensures c.Some? && e.EntityCount? ==>
      c.value == RygGradientUp(e.countLow as real, e.countNormal as real, e.countHigh as real, v)
    ensures c.Some? && (e.CpuUsage? || e.MemUsage?) ==>
      c.value == RygGradientUp(e.thresholdLow, e.thresholdNormal, e.thresholdHigh, v)
    ensures c.Some? ==> ChannelsInUnit(c.value)
  {
    match e
    case FrameCount(_, _, _) => None
    case FPS(_, on, _, bad, normal, good, _, _, _, _, _) =>
      if on then Some(RygGradientDown(bad, normal, good, v)) else None
    case FPSWorst(_, on, _, bad, normal, good, _, _, _, _) =>
      if on then Some(RygGradientDown(bad, normal, good, v)) else None
    case FrameTime(_, on, _, _, bad, normal, good, _, _, _, _, _) =>
      if on then Some(RygGradientUp(good, normal, bad, v)) else None
    case FrameTimeWorst(_, on, _, _, bad, normal, good, _, _, _, _) =>
      if on then Some(RygGradientUp(good, normal, bad, v)) else None
    case EntityCount(_, on, _, high, normal, low, _, _, _) =>
      if on then Some(RygGradientUp(low as real, normal as real, high as real, v)) else None
    case CpuUsage(_, on, _, high, normal, low, _, _, _, _) =>
      if on then Some(RygGradientUp(low, normal, high, v)) else None
    case MemUsage(_, on, _, high, normal, low, _, _, _, _) =>
      if on then Some(RygGradientUp(low, normal, high, v)) else None
  }

  /**
   * `value_highlight`: only when highlighting is on, and inclusively:
   * at or below the threshold for frame rates, at or above it for the
   * others; never for the frame count.
   */
  function ValueHighlight(e: LegacyEntry, v: real): (h: bool)
    ensures e.FrameCount? ==> !h
    ensures LowIsBad(e) ==> (h <==> e.enableHighlight && v <= e.thresholdHighlight)
    ensures !LowIsBad(e) && !e.FrameCount? ==> (h <==> e.enableHighlight && v >= Threshold(e).value)
  {
    match Threshold(e)
    case None => false
    case Some(t) => e.enableHighlight && (if LowIsBad(e) then v <= t else v >= t)
  }

  /** Unlike the current revision, a value exactly at the threshold is highlighted whenever highlighting is on. */
  lemma {:induction false} ThresholdHighlighted(e: LegacyEntry)
    requires !e.FrameCount?
    ensures ValueHighlight(e, Threshold(e).value) <==> e.enableHighlight
  {
    var t := Threshold(e).value;
    if LowIsBad(e) {
      assert t == e.thresholdHighlight;
    }
  }

  /** Highlighting is monotone: a value further on the bad side of a highlighted one is highlighted too. */
  lemma HighlightMonotone(e: LegacyEntry, v: real, w: real)
    requires ValueHighlight(e, v)
    requires if LowIsBad(e) then w <= v else w >= v
    ensures ValueHighlight(e, w)
  {
  }

  /** The frame time and process-usage units follow the current revision's formatting. */
  lemma {:induction false} FrameTimeUnits(e: LegacyEntry, v: real)
    requires e.FrameTime? || e.FrameTimeWorst?
    ensures EndsWith(FormatValue(e, v), " ms") <==> e.displayUnits
  {
    match e
    case FrameTime(_, _, _, units, _, _, _, _, _, digits, precision, _) =>
      D.FrameTimeUnits(units, digits, precision, v);
    case FrameTimeWorst(_, _, _, units, _, _, _, _, digits, precision, _) =>
      D.FrameTimeUnits(units, digits, precision, v);
  }
}
