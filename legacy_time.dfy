/**
 * The older revision of the time entries: a running time and a clock
 * with fixed labels, no custom label and no UTC preference. Their
 * behaviour is that of the current entries with those settings.
 */
module LegacyTime {
  import opened Wrappers
  import opened Numeric
  import opened Text
  import opened Utils
  import T = TimeEntries

  datatype LegacyRunningTime = LegacyRunningTime(
    start: Option<nat>,
    formatHms: bool,
    displayUnits: bool,
    digits: U8,
    precision: U8,
    sortKey: I32)

  /** The same settings as a current-revision entry with the default label. */
  function AsCurrent(e: LegacyRunningTime): T.RunningTime {
    T.RunningTime("", e.start, e.formatHms, e.displayUnits, e.digits, e.precision, e.sortKey)
  }

  const RUNNING_TIME_LABEL: string := "Running Time"

  /** `update_value`: elapsed time, from `start` when set; a start after the elapsed time panics. */
  function RunningTimeValue(e: LegacyRunningTime, elapsed: nat): (r: Result<nat>)
    ensures e.start.None? ==> r == Ok(elapsed)
    ensures e.start.Some? ==> (r.Ok? <==> e.start.value <= elapsed)
    ensures r.Ok? && e.start.Some? ==> r.value == elapsed - e.start.value
  {
    T.RunningTimeValue(AsCurrent(e), elapsed)
  }

  /** `format_value`: `H:MM:SS`, or the seconds followed by " s" when units are shown. */
  function RunningTimeText(e: LegacyRunningTime, value: nat): string {
    T.RunningTimeText(AsCurrent(e), value)
  }

  /** The older running time's fixed label is the current one's default label. */
  lemma RunningTimeLabelAgrees(e: LegacyRunningTime)
    ensures RUNNING_TIME_LABEL == T.RunningTimeLabel(AsCurrent(e))
  {
  }

  datatype LegacyClock = LegacyClock(precision: U8, sortKey: I32)

  /** "Clock" exactly when the `chrono` feature is on (local time), else "Clock (UTC)". */
  function ClockLabel(chrono: bool): (l: string)
    ensures l == "Clock" <==> chrono
    ensures !chrono ==> l == "Clock (UTC)"
  {
    if chrono then "Clock" else "Clock (UTC)"
  }

  /** `update_value`: the local time of day with `chrono`, else the UTC time of day from the system time. */
  function ClockValue(chrono: bool, local: Option<T.TimeOfDay>, sinceEpoch: Option<nat>): (r: Option<T.TimeOfDay>)
    ensures chrono ==> r == local
    ensures !chrono ==> r == T.UtcClock(sinceEpoch)
  {
    if chrono then local else T.UtcClock(sinceEpoch)
  }

  /** `format_value`: the time of day through `format_pretty_time_hms`. */
  function ClockText(e: LegacyClock, t: T.TimeOfDay): string {
    FormatPrettyTimeHms(e.precision, t.h, t.m, t.s, t.nanos)
  }

  /** The older clock is the current clock with UTC not preferred and no custom label. */
  lemma ClockAgrees(e: LegacyClock, chrono: bool, local: Option<T.TimeOfDay>, sinceEpoch: Option<nat>, t: T.TimeOfDay)
    ensures var current := T.Clock("", false, e.precision, e.sortKey);
      && ClockLabel(chrono) == T.ClockLabel(current, chrono)
      && ClockValue(chrono, local, sinceEpoch) == T.ClockValue(current, chrono, local, sinceEpoch)
      && ClockText(e, t) == T.ClockText(current, t)
  {
  }

  /**
   * Without `chrono` the reading is the UTC time of day: hours below 24,
   * minutes and seconds below 60, adding back up to the seconds since
   * midnight.
   */
  lemma UtcReading(sinceEpoch: nat)
    ensures var t := ClockValue(false, None, Some(sinceEpoch)).value;
      && t.h < 24 && t.m < 60 && t.s < 60
      && t.h * 3600 + t.m * 60 + t.s == WholeSecs(sinceEpoch) % T.SECS_PER_DAY
  {
    T.UtcClockIsTimeOfDay(sinceEpoch);
  }
}
