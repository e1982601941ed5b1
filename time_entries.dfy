/**
 * The entries that show time: how long the app has been running, the
 * wall clock, the fixed-timestep period and how far the fixed-timestep
 * accumulator has run past its last step.
 *
 * Durations are whole nanoseconds. The clocks are inputs: the app's
 * elapsed time, the fixed-time accumulator, the system time as a
 * duration since the Unix epoch (absent when the system clock is set
 * before it) and, when the `chrono` feature is on, the local time of day.
 */
module TimeEntries {
  import opened Wrappers
  import opened Numeric
  import opened Text
  import opened Utils

  // ---------------------------------------------------------------------
  // Running time

  datatype RunningTime = RunningTime(
    labelText: string,
    start: Option<nat>,
    formatHms: bool,
    displayUnits: bool,
    digits: U8,
    precision: U8,
    sortKey: I32)

  /** The custom label when one is set, else "Running Time". */
  function RunningTimeLabel(e: RunningTime): (l: string)
    ensures e.labelText != [] ==> l == e.labelText
    ensures e.labelText == [] ==> l == "Running Time"
  {
    if e.labelText == [] then "Running Time" else e.labelText
  }

  /**
   * `update_value`: the elapsed time, measured from `start` when one is
   * set. Subtracting a later start from the elapsed time panics, as
   * `Duration` subtraction does on underflow.
   */
  function RunningTimeValue(e: RunningTime, elapsed: nat): (r: Result<nat>)
    ensures e.start.None? ==> r == Ok(elapsed)
    ensures e.start.Some? ==> (r.Ok? <==> e.start.value <= elapsed)
    ensures r.Ok? && e.start.Some? ==> r.value + e.start.value == elapsed
    ensures r.Ok? ==> r.value <= elapsed
  {
    match e.start
    case None => Ok(elapsed)
    case Some(s) =>
      if s <= elapsed then Ok(elapsed - s) else Panic("overflow when subtracting durations")
  }

  /** `Duration::as_secs_f64`, exactly. */
  function Seconds(nanos: nat): real {
    nanos as real / NANOS_PER_SEC as real
  }

  /** `format_value`: `H:MM:SS` when `format_hms`, else the seconds followed by " s" when units are shown. */
  function RunningTimeText(e: RunningTime, value: nat): string {
    if e.formatHms then FormatPrettyTime(e.precision, value)
    else WithSuffix(FormatPrettyFloatAsWritten(e.digits, e.precision, Seconds(value)), " s", e.displayUnits)
  }

  /**
   * As seconds, the text ends in " s" exactly when units are shown; as
   * `H:MM:SS` it always has the same width, whatever the duration.
   */
  lemma RunningTimeTextShape(e: RunningTime, value: nat)
    ensures !e.formatHms ==> (EndsWith(RunningTimeText(e, value), " s") <==> e.displayUnits)
    ensures e.formatHms ==> |RunningTimeText(e, value)| == if e.precision > 0 then 9 + e.precision else 8
  {
    if e.formatHms {
      FormatPrettyTimeWidth(e.precision, value);
    } else {
      NumberSuffixIffOn(e.digits, e.precision, Seconds(value), " s", e.displayUnits);
    }
  }

  // ---------------------------------------------------------------------
  // Clock

  datatype Clock = Clock(labelText: string, preferUtc: bool, precision: U8, sortKey: I32)

  /** A time of day as the clock entry holds it: hours, minutes, seconds and nanoseconds. */
  datatype TimeOfDay = TimeOfDay(h: U32, m: U32, s: U32, nanos: U32)

  /**
   * The custom label when one is set; otherwise "Clock" when the local
   * time is shown (the `chrono` feature is on and UTC is not preferred),
   * else "Clock (UTC)".
   */
  function ClockLabel(e: Clock, chrono: bool): (l: string)
    ensures e.labelText != [] ==> l == e.labelText
    ensures e.labelText == [] && chrono && !e.preferUtc ==> l == "Clock"
    ensures e.labelText == [] && (!chrono || e.preferUtc) ==> l == "Clock (UTC)"
  {
    if e.labelText != [] then e.labelText
    else if chrono && !e.preferUtc then "Clock"
    else "Clock (UTC)"
  }

  const SECS_PER_DAY: nat := 86400

  /**
   * `get_system_clock_utc`: the time of day in UTC of a moment given as
   * the duration since the Unix epoch; none when the system clock reads
   * earlier than the epoch.
   */
  function UtcClock(sinceEpoch: Option<nat>): (r: Option<TimeOfDay>)
    ensures r.Some? <==> sinceEpoch.Some?
    ensures r.Some? ==> r.value.h < 24 && r.value.m < 60 && r.value.s < 60 && r.value.nanos < NANOS_PER_SEC
  {
    match sinceEpoch
    case None => None
    case Some(now) =>
      var secs := WholeSecs(now);
      Some(TimeOfDay((secs / 3600) % 24, (secs / 60) % 60, secs % 60, SubsecNanos(now)))
  }

  /** The UTC reading is the moment's position within its day: the fields add back up to the seconds since midnight. */
  lemma UtcClockIsTimeOfDay(now: nat)
    ensures var t := UtcClock(Some(now)).value;
      && t.h * 3600 + t.m * 60 + t.s == WholeSecs(now) % SECS_PER_DAY
      && t.nanos == now % NANOS_PER_SEC
  {
    DayDecomposition(WholeSecs(now));
  }

  lemma DayDecomposition(secs: nat)
    ensures (secs / 3600) % 24 * 3600 + (secs / 60) % 60 * 60 + secs % 60 == secs % SECS_PER_DAY
  {
    HourDecomposition(secs);
    DayOfHours(secs);
  }

  /** Within an hour: the minutes and seconds fields add up to the seconds past the hour. */
  lemma HourDecomposition(secs: nat)
    ensures (secs / 60) % 60 * 60 + secs % 60 == secs % 3600
  {
    var q := secs / 60;
    Recombine(secs, q, q % 60, q / 60, secs % 60);
  }

  /** Seconds split as whole minutes and a remainder, the minutes as whole hours and a remainder. */
  lemma Recombine(secs: nat, q: nat, m: nat, r: nat, s: nat)
    requires secs == 60 * q + s && s < 60
    requires q == 60 * r + m && m < 60
    ensures 60 * m + s == secs % 3600
  {
    assert secs == 3600 * r + (60 * m + s);
  }

  /** Within a day: the hours field and the seconds past the hour add up to the seconds since midnight. */
  lemma DayOfHours(secs: nat)
    ensures (secs / 3600) % 24 * 3600 + secs % 3600 == secs % SECS_PER_DAY
  {
    var r := secs / 3600;
    var h := r % 24;
    var t := r / 24;
    assert secs == 3600 * r + secs % 3600;
    assert r == 24 * t + h;
    assert secs == SECS_PER_DAY * t + (3600 * h + secs % 3600);
  }

  /** `update_value`: the local time of day when it is shown, else the UTC one. */
  function ClockValue(e: Clock, chrono: bool, local: Option<TimeOfDay>, sinceEpoch: Option<nat>): (r: Option<TimeOfDay>)
    ensures chrono && !e.preferUtc ==> r == local
    ensures !chrono || e.preferUtc ==> r == UtcClock(sinceEpoch)
  {
    if chrono && !e.preferUtc then local else UtcClock(sinceEpoch)
  }

  /** `format_value`: the time of day through `format_pretty_time_hms`. */
  function ClockText(e: Clock, t: TimeOfDay): string {
    FormatPrettyTimeHms(e.precision, t.h, t.m, t.s, t.nanos)
  }

  /** A UTC reading always prints in the same width, with hours shown exactly when past the first hour of the day. */
  lemma UtcClockTextShape(e: Clock, now: nat)
    ensures var t := UtcClock(Some(now)).value;
      var text := ClockText(e, t);
      && |text| == (if e.precision > 0 then 9 + e.precision else 8)
      && (text[2] == ':' <==> t.h > 0)
  {
    ClockTextShape(e, UtcClock(Some(now)).value);
  }

  /** A time of day prints in a fixed width, with hours shown exactly when non-zero. */
  lemma ClockTextShape(e: Clock, t: TimeOfDay)
    requires t.h < 24 && t.nanos < NANOS_PER_SEC
    ensures var text := ClockText(e, t);
      && |text| == (if e.precision > 0 then 9 + e.precision else 8)
      && (text[2] == ':' <==> t.h > 0)
  {
    FormatPrettyTimeHmsWidth(e.precision, t.h, t.m, t.s, t.nanos);
    ClockTextHours(e, t);
  }

  lemma ClockTextHours(e: Clock, t: TimeOfDay)
    requires t.h < 24
    ensures var text := ClockText(e, t); |text| >= 8 && (text[2] == ':' <==> t.h > 0)
  {
    FormatPrettyTimeHmsHours(e.precision, t.h, t.m, t.s, t.nanos);
  }

  // ---------------------------------------------------------------------
  // Fixed timestep

  /** `Time<Fixed>`: the timestep and the time accumulated past the last step; Bevy keeps the timestep non-zero. */
  datatype FixedTime = FixedTime(timestep: nat, overstep: nat)

  datatype FixedTimeStep = FixedTimeStep(
    labelText: string,
    displayUnits: bool,
    asHz: bool,
    digits: U8,
    precision: U8,
    sortKey: I32)

  function FixedTimeStepLabel(e: FixedTimeStep): (l: string)
    ensures e.labelText != [] ==> l == e.labelText
    ensures e.labelText == [] ==> l == "Fixed Time Step"
  {
    if e.labelText == [] then "Fixed Time Step" else e.labelText
  }

  /** The step as a rate in Hz, or as a period in milliseconds. */
  function StepNumber(asHz: bool, nanos: nat): real
    requires nanos > 0
  {
    if asHz then 1_000_000_000.0 / nanos as real else nanos as real / 1_000_000.0
  }

  /** The rate and the period describe the same step: their product is always 1000. */
  lemma RateTimesPeriod(nanos: nat)
    requires nanos > 0
    ensures StepNumber(true, nanos) * StepNumber(false, nanos) == 1000.0
  {
    var n := nanos as real;
    assert (1_000_000_000.0 / n) * n == 1_000_000_000.0;
    calc {
      StepNumber(true, nanos) * StepNumber(false, nanos);
      (1_000_000_000.0 / n) * (n / 1_000_000.0);
      ((1_000_000_000.0 / n) * n) / 1_000_000.0;
    }
  }

  /** `format_value`: the rate or period, then " Hz" or " ms" when units are shown. */
  function TimeStepText(e: FixedTimeStep, nanos: nat): string
    requires nanos > 0
  {
    WithSuffix(FormatPrettyFloatAsWritten(e.digits, e.precision, StepNumber(e.asHz, nanos)),
               if e.asHz then " Hz" else " ms", e.displayUnits)
  }

  /** The unit shown is " Hz" exactly for a rate with units on, " ms" exactly for a period with units on. */
  lemma TimeStepUnits(e: FixedTimeStep, nanos: nat)
    requires nanos > 0
    ensures EndsWith(TimeStepText(e, nanos), " Hz") <==> e.displayUnits && e.asHz
    ensures EndsWith(TimeStepText(e, nanos), " ms") <==> e.displayUnits && !e.asHz
  {
    var unit := if e.asHz then " Hz" else " ms";
    var other := if e.asHz then " ms" else " Hz";
    var number := FormatPrettyFloatAsWritten(e.digits, e.precision, StepNumber(e.asHz, nanos));
    NumberSuffixIffOn(e.digits, e.precision, StepNumber(e.asHz, nanos), unit, e.displayUnits);
    NumberSuffixIffOn(e.digits, e.precision, StepNumber(e.asHz, nanos), other, false);
    if e.displayUnits {
      EndsWithOne(number + unit, unit, other);
    }
  }

  // ---------------------------------------------------------------------
  // Fixed overstep

  datatype FixedOverstep = FixedOverstep(
    labelText: string,
    displayUnits: bool,
    asPercent: bool,
    digits: U8,
    precision: U8,
    sortKey: I32)

  function FixedOverstepLabel(e: FixedOverstep): (l: string)
    ensures e.labelText != [] ==> l == e.labelText
    ensures e.labelText == [] ==> l == "Fixed Overstep"
  {
    if e.labelText == [] then "Fixed Overstep" else e.labelText
  }

  /** `update_value`: the overstep as a percentage of the timestep, or in milliseconds. */
  function OverstepValue(e: FixedOverstep, t: FixedTime): real
    requires t.timestep > 0
  {
    if e.asPercent then t.overstep as real / t.timestep as real * 100.0
    else Seconds(t.overstep) * 1000.0
  }

  /** `format_value`: "%" after a percentage whatever `display_units` says, else " ms" when units are shown. */
  function OverstepText(e: FixedOverstep, v: real): string {
    OverstepSuffixed(FormatPrettyFloatAsWritten(e.digits, e.precision, v), e.asPercent, e.displayUnits)
  }

  function OverstepSuffixed(number: string, asPercent: bool, displayUnits: bool): string {
    if asPercent then number + "%" else WithSuffix(number, " ms", displayUnits)
  }

  lemma OverstepUnits(e: FixedOverstep, v: real)
    ensures EndsWith(OverstepText(e, v), "%") <==> e.asPercent
    ensures EndsWith(OverstepText(e, v), " ms") <==> !e.asPercent && e.displayUnits
  {
    SuffixedUnits(FormatPrettyFloatAsWritten(e.digits, e.precision, v), e.asPercent, e.displayUnits);
  }

  /** After a number ending in a digit, "%" marks a percentage and " ms" a duration shown with units. */
  lemma SuffixedUnits(number: string, asPercent: bool, displayUnits: bool)
    requires |number| >= 1 && IsDigit(number[|number| - 1])
    ensures EndsWith(OverstepSuffixed(number, asPercent, displayUnits), "%") <==> asPercent
    ensures EndsWith(OverstepSuffixed(number, asPercent, displayUnits), " ms") <==> !asPercent && displayUnits
  {
    SuffixIffOn(number, "%", asPercent);
    SuffixIffOn(number, " ms", !asPercent && displayUnits);
    if asPercent {
      EndsWithOne(number + "%", "%", " ms");
    } else if displayUnits {
      EndsWithOne(number + " ms", " ms", "%");
    }
  }

  /** `max_value_hint` and `min_value_hint`: a fixed 0 to 100 range. */
  function OverstepRange(e: FixedOverstep): (r: (Option<real>, Option<real>))
    ensures r == (Some(0.0), Some(100.0))
  {
    (Some(0.0), Some(100.0))
  }

  /** While the accumulator is below one step, a percentage stays inside the announced range. */
  lemma OverstepWithinRange(e: FixedOverstep, t: FixedTime)
    requires e.asPercent && t.timestep > 0 && t.overstep < t.timestep
    ensures OverstepRange(e).0.value <= OverstepValue(e, t) < OverstepRange(e).1.value
  {
    UnitQuotient(t.overstep as real, t.timestep as real);
  }
}
