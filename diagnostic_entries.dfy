/**
 * The entries that show Bevy's diagnostics: frame rate (current, worst,
 * average and the mean of the slowest frames), frame time, frame and
 * entity counts, and process and system CPU and memory usage.
 *
 * The diagnostics store is an input: for each diagnostic path it holds
 * the latest value, the smoothed value, the average and the history of
 * measurements, any of which may be missing.
 */
module DiagnosticEntries {
  import opened Wrappers
  import opened Numeric
  import opened Colors
  import opened Text
  import opened Entry
  import opened Utils
  import opened Samples

  /** What the store keeps for one diagnostic path. */
  datatype Diagnostic = Diagnostic(
    value: Option<real>,
    smoothed: Option<real>,
    average: Option<real>,
    history: seq<Sample>)

  type DiagnosticsStore = map<string, Diagnostic>

  /** The paths of Bevy's frame-time, entity-count and system-information diagnostics. */
  const FPS_PATH: string := "fps"
  const FRAME_TIME_PATH: string := "frame_time"
  const FRAME_COUNT_PATH: string := "frame_count"
  const ENTITY_COUNT_PATH: string := "entity_count"
  const PROCESS_CPU_USAGE_PATH: string := "process/cpu_usage"
  const SYSTEM_CPU_USAGE_PATH: string := "system/cpu_usage"
  const PROCESS_MEM_USAGE_PATH: string := "process/mem_usage"
  const SYSTEM_MEM_USAGE_PATH: string := "system/mem_usage"

  /**
   * The diagnostics entry types with their settings. Counts (frames,
   * entities) are `u32` values and thresholds; all other values and
   * thresholds are floats.
   */
  datatype DiagnosticEntry =
    | FPS(labelText: string, colorGradient: ColorGradient, thresholdHighlight: Option<real>,
          maxValueHint: Option<real>, smoothed: bool, digits: U8, precision: U8, sortKey: I32)
    | FPSWorst(labelText: string, colorGradient: ColorGradient, thresholdHighlight: Option<real>,
               maxValueHint: Option<real>, digits: U8, precision: U8, sortKey: I32)
    | FPSAverage(labelText: string, colorGradient: ColorGradient, thresholdHighlight: Option<real>,
                 maxValueHint: Option<real>, digits: U8, precision: U8, sortKey: I32)
    | FPSPctLow(labelText: string, colorGradient: ColorGradient, thresholdHighlight: Option<real>,
                maxValueHint: Option<real>, digits: U8, precision: U8, filterFraction: real, sortKey: I32)
    | FrameTime(labelText: string, displayUnits: bool, colorGradient: ColorGradient, thresholdHighlight: Option<real>,
                maxValueHint: Option<real>, smoothed: bool, digits: U8, precision: U8, sortKey: I32)
    | FrameTimeWorst(labelText: string, displayUnits: bool, colorGradient: ColorGradient, thresholdHighlight: Option<real>,
                     maxValueHint: Option<real>, digits: U8, precision: U8, sortKey: I32)
    | FrameCount(labelText: string, digits: U8, sortKey: I32)
    | EntityCount(labelText: string, colorGradient: ColorGradient, countThreshold: Option<U32>,
                  countMaxHint: Option<U32>, digits: U8, sortKey: I32)
    | CpuUsage(labelText: string, colorGradient: ColorGradient, thresholdHighlight: Option<real>,
               smoothed: bool, precision: U8, sortKey: I32)
    | SystemCpuUsage(labelText: string, colorGradient: ColorGradient, thresholdHighlight: Option<real>,
                     smoothed: bool, precision: U8, sortKey: I32)
    | MemUsage(labelText: string, displayUnits: bool, colorGradient: ColorGradient, thresholdHighlight: Option<real>,
               maxValueHint: Option<real>, smoothed: bool, precision: U8, sortKey: I32)
    | SystemMemUsage(labelText: string, colorGradient: ColorGradient, thresholdHighlight: Option<real>,
                     smoothed: bool, precision: U8, sortKey: I32)

  // ---------------------------------------------------------------------
  // Labels

  function DefaultLabel(e: DiagnosticEntry): string {
    match e
    case FPS(_, _, _, _, _, _, _, _) => "FPS"
    case FPSWorst(_, _, _, _, _, _, _) => "FPS (worst)"
    case FPSAverage(_, _, _, _, _, _, _) => "FPS (avg)"
    case FPSPctLow(_, _, _, _, _, _, _, _) => "FPS (low)"
    case FrameTime(_, _, _, _, _, _, _, _, _) => "Frame Time"
    case FrameTimeWorst(_, _, _, _, _, _, _, _) => "Frame Time (max)"
    case FrameCount(_, _, _) => "Frame Count"
    case EntityCount(_, _, _, _, _, _) => "Entity Count"
    case CpuUsage(_, _, _, _, _, _) => "CPU Usage"
    case SystemCpuUsage(_, _, _, _, _, _) => "System CPU Usage"
    case MemUsage(_, _, _, _, _, _, _, _) => "RAM Usage"
    case SystemMemUsage(_, _, _, _, _, _) => "System RAM Usage"
  }

  /** The custom label when one is set, else the entry type's own. */
  function Label(e: DiagnosticEntry): (l: string)
    ensures e.labelText != [] ==> l == e.labelText
    ensures e.labelText == [] ==> l == DefaultLabel(e)
    ensures l != []
  {
    if e.labelText == [] then DefaultLabel(e) else e.labelText
  }

  // ---------------------------------------------------------------------
  // The entry hooks

  /** `diagnostics.get(path)?` followed by `smoothed()?` or `value()?`. */
  function Reading(store: DiagnosticsStore, path: string, smoothed: bool): (r: Option<real>)
    ensures path !in store ==> r.None?
    ensures path in store ==> r == if smoothed then store[path].smoothed else store[path].value
  {
    if path !in store then None
    else if smoothed then store[path].smoothed
    else store[path].value
  }

  function History(store: DiagnosticsStore, path: string): seq<Sample> {
    if path in store then store[path].history else []
  }

  /** `value()? as u32`: the count, truncated and saturated into `u32`. */
  function Count(store: DiagnosticsStore, path: string): (r: Option<real>)
    ensures r.Some? <==> Reading(store, path, false).Some?
    ensures r.Some? ==> r.value == SaturatingU32(Reading(store, path, false).value) as real
  {
    match Reading(store, path, false)
    case Some(x) => Some(SaturatingU32(x) as real)
    case None => None
  }

  /** `update_value` for each entry type. */
  function UpdateValue(e: DiagnosticEntry, store: DiagnosticsStore): (r: Option<real>)
    ensures e.FPSWorst? ==> r == MinSample(History(store, FPS_PATH))
    ensures e.FrameTimeWorst? ==> r == MaxSample(History(store, FRAME_TIME_PATH))
    ensures e.FPSPctLow? ==> r == PctLowValue(History(store, FPS_PATH), e.filterFraction)
    ensures e.FPSAverage? ==> r == if FPS_PATH in store then store[FPS_PATH].average else None
    ensures e.FrameCount? ==> r == Count(store, FRAME_COUNT_PATH)
    ensures e.EntityCount? ==> r == Count(store, ENTITY_COUNT_PATH)
    ensures e.FPS? || e.FrameTime? || e.CpuUsage? || e.SystemCpuUsage? || e.MemUsage? || e.SystemMemUsage? ==>
      r == Reading(store, PathOf(e), e.smoothed)
  {
    match e
    case FPS(_, _, _, _, smoothed, _, _, _) => Reading(store, FPS_PATH, smoothed)
    case FPSWorst(_, _, _, _, _, _, _) =>
      if FPS_PATH in store then MinSample(store[FPS_PATH].history) else None
    case FPSAverage(_, _, _, _, _, _, _) =>
      if FPS_PATH in store then store[FPS_PATH].average else None
    case FPSPctLow(_, _, _, _, _, _, fraction, _) =>
      if FPS_PATH in store then PctLowValue(store[FPS_PATH].history, fraction) else None
    case FrameTime(_, _, _, _, _, smoothed, _, _, _) => Reading(store, FRAME_TIME_PATH, smoothed)
    case FrameTimeWorst(_, _, _, _, _, _, _, _) =>
      if FRAME_TIME_PATH in store then MaxSample(store[FRAME_TIME_PATH].history) else None
    case FrameCount(_, _, _) => Count(store, FRAME_COUNT_PATH)
    case EntityCount(_, _, _, _, _, _) => Count(store, ENTITY_COUNT_PATH)
    case CpuUsage(_, _, _, smoothed, _, _) => Reading(store, PROCESS_CPU_USAGE_PATH, smoothed)
    case SystemCpuUsage(_, _, _, smoothed, _, _) => Reading(store, SYSTEM_CPU_USAGE_PATH, smoothed)
    case MemUsage(_, _, _, _, _, smoothed, _, _) => Reading(store, PROCESS_MEM_USAGE_PATH, smoothed)
    case SystemMemUsage(_, _, _, smoothed, _, _) => Reading(store, SYSTEM_MEM_USAGE_PATH, smoothed)
  }

  /** The diagnostic an entry reads. */
  function PathOf(e: DiagnosticEntry): string {
    match e
    case FPS(_, _, _, _, _, _, _, _) => FPS_PATH
    case FPSWorst(_, _, _, _, _, _, _) => FPS_PATH
    case FPSAverage(_, _, _, _, _, _, _) => FPS_PATH
    case FPSPctLow(_, _, _, _, _, _, _, _) => FPS_PATH
    case FrameTime(_, _, _, _, _, _, _, _, _) => FRAME_TIME_PATH
    case FrameTimeWorst(_, _, _, _, _, _, _, _) => FRAME_TIME_PATH
    case FrameCount(_, _, _) => FRAME_COUNT_PATH
    case EntityCount(_, _, _, _, _, _) => ENTITY_COUNT_PATH
    case CpuUsage(_, _, _, _, _, _) => PROCESS_CPU_USAGE_PATH
    case SystemCpuUsage(_, _, _, _, _, _) => SYSTEM_CPU_USAGE_PATH
    case MemUsage(_, _, _, _, _, _, _, _) => PROCESS_MEM_USAGE_PATH
    case SystemMemUsage(_, _, _, _, _, _) => SYSTEM_MEM_USAGE_PATH
  }

  /** An entry whose diagnostic is missing from the store shows no value. */
  lemma MissingDiagnostic(e: DiagnosticEntry, store: DiagnosticsStore)
    requires PathOf(e) !in store
    ensures UpdateValue(e, store).None?
  {
  }

  /** `format_value` for each entry type. */
  function FormatValue(e: DiagnosticEntry, v: real): string {
    match e
    case FPS(_, _, _, _, _, digits, precision, _) => FormatPrettyFloatAsWritten(digits, precision, v)
    case FPSWorst(_, _, _, _, digits, precision, _) => FormatPrettyFloatAsWritten(digits, precision, v)
    case FPSAverage(_, _, _, _, digits, precision, _) => FormatPrettyFloatAsWritten(digits, precision, v)
    case FPSPctLow(_, _, _, _, digits, precision, _, _) => FormatPrettyFloatAsWritten(digits, precision, v)
    case FrameTime(_, units, _, _, _, _, digits, precision, _) => FormatMillis(units, digits, precision, v)
    case FrameTimeWorst(_, units, _, _, _, digits, precision, _) => FormatMillis(units, digits, precision, v)
    case FrameCount(_, digits, _) => FormatPrettyIntAsWritten(digits, CountAsI64(v))
    case EntityCount(_, _, _, _, digits, _) => FormatPrettyIntAsWritten(digits, CountAsI64(v))
    case CpuUsage(_, _, _, _, precision, _) => FormatPercent(precision, v)
    case SystemCpuUsage(_, _, _, _, precision, _) => FormatPercent(precision, v)
    case MemUsage(_, units, _, _, _, _, precision, _) => FormatGiB(units, precision, v)
    case SystemMemUsage(_, _, _, _, precision, _) => FormatPercent(precision, v)
  }

  /** `*value as i64` for a count: exact for every `u32`, which is all a count entry ever holds. */
  function CountAsI64(v: real): (r: I64)
    ensures 0.0 <= v <= U32_MAX as real ==> r == v.Floor
  {
    if 0.0 <= v <= U32_MAX as real then v.Floor else WrapI64(v.Floor)
  }

  /**
   * A count prints as the corrected `format_pretty_int` would print it,
   * filling its field exactly, as long as `10i64.pow(digits)` does not wrap.
   */
  lemma CountText(e: DiagnosticEntry, n: nat)
    requires (e.FrameCount? || e.EntityCount?) && e.digits <= 18 && n <= U32_MAX
    ensures FormatValue(e, n as real) == FormatPrettyInt(e.digits, n)
    ensures |FormatValue(e, n as real)| == IntWidth(e.digits, n)
  {
    assert CountAsI64(n as real) == n;
    CountFormat(e, n as real);
    FormatPrettyIntAgrees(e.digits, n);
    FormatPrettyIntShape(e.digits, n);
  }

  lemma CountFormat(e: DiagnosticEntry, v: real)
    requires e.FrameCount? || e.EntityCount?
    ensures FormatValue(e, v) == FormatPrettyIntAsWritten(e.digits, CountAsI64(v))
  {
    match e
    case FrameCount(_, _, _) =>
    case EntityCount(_, _, _, _, _, _) =>
  }

  /** Frame times: the number, then " ms" when units are shown. */
  function FormatMillis(units: bool, digits: U8, precision: U8, v: real): string {
    WithSuffix(FormatPrettyFloatAsWritten(digits, precision, v), " ms", units)
  }

  /** Process memory: two integer digits, then " GiB" when units are shown. */
  function FormatGiB(units: bool, precision: U8, v: real): string {
    WithSuffix(FormatPrettyFloatAsWritten(2, precision, v), " GiB", units)
  }

  /** Percentages: two integer digits, then "%". */
  function FormatPercent(precision: U8, v: real): (s: string)
    ensures |s| >= 2 && s[|s| - 1] == '%' && IsDigit(s[|s| - 2])
  {
    FormatPrettyFloatAsWritten(2, precision, v) + "%"
  }

  /** Frame times end in " ms" exactly when `display_units` is set. */
  lemma FrameTimeUnits(units: bool, digits: U8, precision: U8, v: real)
    ensures EndsWith(FormatMillis(units, digits, precision, v), " ms") <==> units
  {
    NumberSuffixIffOn(digits, precision, v, " ms", units);
  }

  /** Process memory ends in " GiB" exactly when `display_units` is set. */
  lemma MemUsageUnits(units: bool, precision: U8, v: real)
    ensures EndsWith(FormatGiB(units, precision, v), " GiB") <==> units
  {
    NumberSuffixIffOn(2, precision, v, " GiB", units);
  }

  /** `value_color`: the gradient's colour for the value; frame counts keep the default colour. */
  function ValueColor(e: DiagnosticEntry, v: real): (c: Option<Color>)
    ensures e.FrameCount? ==> c.None?
    ensures !e.FrameCount? ==> c == e.colorGradient.colorFor(v)
  {
    if e.FrameCount? then None else e.colorGradient.colorFor(v)
  }

  /** Frame-rate entries flag low values; the others flag high ones. */
  predicate LowIsBad(e: DiagnosticEntry) {
    e.FPS? || e.FPSWorst? || e.FPSAverage? || e.FPSPctLow?
  }

  /** The highlight threshold, `u32` for entity counts. */
  function Threshold(e: DiagnosticEntry): Option<real> {
    match e
    case FrameCount(_, _, _) => None
    case EntityCount(_, _, t, _, _, _) => (match t case Some(n) => Some(n as real) case None => None)
    case _ => e.thresholdHighlight
  }

  /** `value_highlight`: strictly beyond the threshold, on the bad side; never without a threshold. */
  function ValueHighlight(e: DiagnosticEntry, v: real): (h: bool)
    ensures Threshold(e).None? ==> !h
    ensures LowIsBad(e) ==> (h <==> Threshold(e).Some? && v < Threshold(e).value)
    ensures !LowIsBad(e) ==> (h <==> Threshold(e).Some? && v > Threshold(e).value)
  {
    match Threshold(e)
    case None => false
    case Some(t) => if LowIsBad(e) then v < t else v > t
  }

  /** A value at the threshold is not highlighted, whichever side is bad. */
  lemma ThresholdNotHighlighted(e: DiagnosticEntry)
    requires Threshold(e).Some?
    ensures !ValueHighlight(e, Threshold(e).value)
  {
  }

  // ---------------------------------------------------------------------
  // Range hints

  /** Entries that announce a value range (all but the frame count). */
  predicate HasRange(e: DiagnosticEntry) {
    !e.FrameCount?
  }

  /**
   * The derived upper bound: the explicit hint if set, else the larger of
   * the highlight threshold and the gradient's highest stop, or whichever
   * exists.
   */
  function DerivedMax(explicit: Option<real>, threshold: Option<real>, stop: Option<real>): (r: Option<real>)
    ensures explicit.Some? ==> r == explicit
    ensures explicit.None? ==> (r.Some? <==> threshold.Some? || stop.Some?)
    ensures explicit.None? && r.Some? ==>
      && (threshold.Some? ==> threshold.value <= r.value)
      && (stop.Some? ==> stop.value <= r.value)
      && (r == threshold || r == stop)
  {
    explicit.Or(
      match (threshold, stop)
      case (Some(x), None) => Some(x)
      case (None, Some(x)) => Some(x)
      case (Some(a), Some(b)) => Some(if a >= b then a else b)
      case (None, None) => None)
  }

  /** The stop of the gradient converted to `u32` (`as u32`), for entity counts. */
  function CountStop(stop: Option<real>): Option<real> {
    match stop case Some(x) => Some(SaturatingU32(x) as real) case None => None
  }

  /** `max_value_hint`: fixed at 100 for CPU and system memory percentages, derived for the others. */
  function MaxValueHint(e: DiagnosticEntry): (r: Option<real>)
    requires HasRange(e)
    ensures e.CpuUsage? || e.SystemCpuUsage? || e.SystemMemUsage? ==> r == Some(100.0)
    ensures e.EntityCount? ==> r == DerivedMax(
      match e.countMaxHint case Some(n) => Some(n as real) case None => None,
      Threshold(e), CountStop(e.colorGradient.maxStop))
    ensures e.FPS? || e.FPSWorst? || e.FPSAverage? || e.FPSPctLow? || e.FrameTime? || e.FrameTimeWorst? || e.MemUsage? ==>
      r == DerivedMax(e.maxValueHint, e.thresholdHighlight, e.colorGradient.maxStop)
  {
    match e
    case CpuUsage(_, _, _, _, _, _) => Some(100.0)
    case SystemCpuUsage(_, _, _, _, _, _) => Some(100.0)
    case SystemMemUsage(_, _, _, _, _, _) => Some(100.0)
    case EntityCount(_, g, _, hint, _, _) =>
      DerivedMax(match hint case Some(n) => Some(n as real) case None => None, Threshold(e), CountStop(g.maxStop))
    case FPS(_, g, t, hint, _, _, _, _) => DerivedMax(hint, t, g.maxStop)
    case FPSWorst(_, g, t, hint, _, _, _) => DerivedMax(hint, t, g.maxStop)
    case FPSAverage(_, g, t, hint, _, _, _) => DerivedMax(hint, t, g.maxStop)
    case FPSPctLow(_, g, t, hint, _, _, _, _) => DerivedMax(hint, t, g.maxStop)
    case FrameTime(_, _, g, t, hint, _, _, _, _) => DerivedMax(hint, t, g.maxStop)
    case FrameTimeWorst(_, _, g, t, hint, _, _, _) => DerivedMax(hint, t, g.maxStop)
    case MemUsage(_, _, g, t, hint, _, _, _) => DerivedMax(hint, t, g.maxStop)
  }

  /** `min_value_hint`: zero for every ranged entry. */
  function MinValueHint(e: DiagnosticEntry): (r: Option<real>)
    requires HasRange(e)
    ensures r == Some(0.0)
  {
    Some(0.0)
  }

  /**
   * With a threshold set and no explicit hint, a range widget's upper
   * bound is never below the threshold, so the highlighted region is on
   * the bar.
   */
  lemma MaxHintCoversThreshold(e: DiagnosticEntry)
    requires HasRange(e) && !e.CpuUsage? && !e.SystemCpuUsage? && !e.SystemMemUsage?
    requires Threshold(e).Some?
    requires if e.EntityCount? then e.countMaxHint.None? else e.maxValueHint.None?
    ensures MaxValueHint(e).Some? && Threshold(e).value <= MaxValueHint(e).value
  {
  }

  // ---------------------------------------------------------------------
  // As overlay entries

  /** The entry as the overlay sees it. */
  function AsEntry(e: DiagnosticEntry): (r: Entry<DiagnosticsStore, real>)
    ensures r.labelText == Label(e) && r.sortKey == e.sortKey
    ensures forall store :: r.updateValue(store) == UpdateValue(e, store)
    ensures forall v :: r.formatValue(v) == FormatValue(e, v)
    ensures forall v :: r.valueColor(v) == ValueColor(e, v) && r.valueHighlight(v) == ValueHighlight(e, v)
  {
    Entry(Label(e), e.sortKey, s => UpdateValue(e, s), v => FormatValue(e, v), v => ValueColor(e, v), v => ValueHighlight(e, v))
  }

  function AsRangeEntry(e: DiagnosticEntry): (r: RangeEntry<DiagnosticsStore, real>)
    requires HasRange(e)
    ensures r.entry == AsEntry(e) && r.minValueHint == Some(0.0)
  {
    RangeEntry(AsEntry(e), MaxValueHint(e), MinValueHint(e))
  }
}
