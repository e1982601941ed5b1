/**
 * The entries that show the time the renderer spends per frame, on the
 * CPU or on the GPU: the sum of every `render/.../elapsed_cpu` (or
 * `elapsed_gpu`) diagnostic the render passes report.
 *
 * The store is seen here in the order `DiagnosticsStore::iter` visits
 * it: a sequence of (path, diagnostic) pairs.
 */
module RenderEntries {
  import opened Wrappers
  import opened Numeric
  import opened Colors
  import opened Text
  import opened Entry
  import opened Samples
  import D = DiagnosticEntries

  type DiagnosticList = seq<(string, D.Diagnostic)>

  datatype RenderKind = Cpu | Gpu

  datatype RenderEntry = RenderEntry(
    kind: RenderKind,
    labelText: string,
    displayUnits: bool,
    colorGradient: ColorGradient,
    thresholdHighlight: Option<real>,
    maxValueHint: Option<real>,
    smoothed: bool,
    digits: U8,
    precision: U8,
    sortKey: I32)

  function DefaultLabel(kind: RenderKind): string {
    match kind
    case Cpu => "Render CPU Time"
    case Gpu => "Render GPU Time"
  }

  /** The custom label when one is set, else "Render CPU Time" or "Render GPU Time". */
  function Label(e: RenderEntry): (l: string)
    ensures e.labelText != [] ==> l == e.labelText
    ensures e.labelText == [] ==> l == DefaultLabel(e.kind)
  {
    if e.labelText == [] then DefaultLabel(e.kind) else e.labelText
  }

  function PathSuffix(kind: RenderKind): string {
    match kind
    case Cpu => "elapsed_cpu"
    case Gpu => "elapsed_gpu"
  }

  /** The paths the entry adds up: under "render", ending in the kind's suffix. */
  predicate Matches(path: string, kind: RenderKind) {
    StartsWith(path, "render") && EndsWith(path, PathSuffix(kind))
  }

  /** The reading one diagnostic contributes: its smoothed or latest value. */
  function Contribution(d: D.Diagnostic, smoothed: bool): Option<real> {
    if smoothed then d.smoothed else d.value
  }

  /** What each diagnostic, in visiting order, offers to the total: nothing unless its path matches. */
  function Contributions(ds: DiagnosticList, kind: RenderKind, smoothed: bool): (cs: seq<Option<real>>)
    ensures |cs| == |ds|
    ensures forall i :: 0 <= i < |ds| ==>
      cs[i] == if Matches(ds[i].0, kind) then Contribution(ds[i].1, smoothed) else None
  {
    seq(|ds|, i requires 0 <= i < |ds| => if Matches(ds[i].0, kind) then Contribution(ds[i].1, smoothed) else None)
  }

  /** The running total over the offered readings: absent until the first reading, then their running sum. */
  function AddUp(cs: seq<Option<real>>): Option<real> {
    if cs == [] then None else Accumulate(AddUp(cs[..|cs| - 1]), cs[|cs| - 1])
  }

  /** One step of the running total: an offered reading starts it or adds to it. */
  function Accumulate(total: Option<real>, c: Option<real>): Option<real> {
    match c
    case None => total
    case Some(v) => (match total case Some(t) => Some(t + v) case None => Some(v))
  }

  lemma AddUpStep(cs: seq<Option<real>>, i: nat)
    requires i < |cs|
    ensures AddUp(cs[..i + 1]) == Accumulate(AddUp(cs[..i]), cs[i])
  {
    assert cs[..i + 1][..i] == cs[..i];
  }

  /** The readings actually offered, in order: an independent description of what is summed. */
  function Present(cs: seq<Option<real>>): (r: seq<real>)
    ensures |r| <= |cs|
  {
    if cs == [] then []
    else
      var rest := Present(cs[..|cs| - 1]);
      match cs[|cs| - 1]
      case None => rest
      case Some(v) => rest + [v]
  }

  /** The total the entry shows. */
  function Total(ds: DiagnosticList, kind: RenderKind, smoothed: bool): Option<real> {
    AddUp(Contributions(ds, kind, smoothed))
  }

  /** The running total is the sum of the offered readings, and there is none exactly when nothing was offered. */
  lemma {:induction false} AddUpIsSum(cs: seq<Option<real>>)
    ensures AddUp(cs) == if Present(cs) == [] then None else Some(Sum(Present(cs)))
  {
    if cs != [] {
      var prefix := cs[..|cs| - 1];
      AddUpIsSum(prefix);
      match cs[|cs| - 1]
      case None =>
      case Some(v) =>
        var r := Present(prefix) + [v];
        assert r[..|r| - 1] == Present(prefix);
    }
  }

  /** Nothing is offered exactly when every diagnostic offers nothing. */
  lemma {:induction false} PresentEmptyIff(cs: seq<Option<real>>)
    ensures Present(cs) == [] <==> forall i :: 0 <= i < |cs| ==> cs[i].None?
  {
    if cs != [] {
      PresentEmptyIff(cs[..|cs| - 1]);
      assert forall i :: 0 <= i < |cs| - 1 ==> cs[..|cs| - 1][i] == cs[i];
    }
  }

  /**
   * The total is the sum of the matching readings; there is none exactly
   * when no diagnostic under the matching paths has a reading.
   */
  lemma TotalIsSumOfReadings(ds: DiagnosticList, kind: RenderKind, smoothed: bool)
    ensures var cs := Contributions(ds, kind, smoothed);
      Total(ds, kind, smoothed) == if Present(cs) == [] then None else Some(Sum(Present(cs)))
    ensures Total(ds, kind, smoothed).None? <==>
      forall i :: 0 <= i < |ds| && Matches(ds[i].0, kind) ==> Contribution(ds[i].1, smoothed).None?
  {
    var cs := Contributions(ds, kind, smoothed);
    AddUpIsSum(cs);
    PresentEmptyIff(cs);
  }

  /** Diagnostics outside the matching paths never change the total. */
  lemma OtherPathsIgnored(ds: DiagnosticList, kind: RenderKind, smoothed: bool, path: string, d: D.Diagnostic)
    requires !Matches(path, kind)
    ensures Total(ds + [(path, d)], kind, smoothed) == Total(ds, kind, smoothed)
  {
    var cs := Contributions(ds + [(path, d)], kind, smoothed);
    assert cs[..|ds|] == Contributions(ds, kind, smoothed);
  }

  /**
   * `update_value`: visits every diagnostic, skips the others, and adds
   * each matching reading to the total, which starts out absent.
   */
  method UpdateValue(e: RenderEntry, ds: DiagnosticList) returns (total: Option<real>)
    ensures total == Total(ds, e.kind, e.smoothed)
  {
    ghost var cs := Contributions(ds, e.kind, e.smoothed);
    total := None;
    for i := 0 to |ds|
      invariant total == AddUp(cs[..i])
    {
      AddUpStep(cs, i);
      var (path, d) := ds[i];
      total := Visit(e, total, path, d);
    }
    assert cs[..|ds|] == cs;
  }

  /** The body of the loop of `update_value` for one diagnostic: one step of the running total. */
  method Visit(e: RenderEntry, total: Option<real>, path: string, d: D.Diagnostic) returns (next: Option<real>)
    ensures next == Accumulate(total, if Matches(path, e.kind) then Contribution(d, e.smoothed) else None)
  {
    next := total;
    if !Matches(path, e.kind) {
      return;
    }
    var value := if e.smoothed then d.smoothed else d.value;
    if value.Some? {
      if next.Some? {
        next := Some(next.value + value.value);
      } else {
        next := Some(value.value);
      }
    }
  }

  /** `format_value`: the number, then " ms" when units are shown. */
  function FormatValue(e: RenderEntry, v: real): string {
    D.FormatMillis(e.displayUnits, e.digits, e.precision, v)
  }

  /** The text ends in " ms" exactly when units are shown. */
  lemma FormatUnits(e: RenderEntry, v: real)
    ensures EndsWith(FormatValue(e, v), " ms") <==> e.displayUnits
  {
    D.FrameTimeUnits(e.displayUnits, e.digits, e.precision, v);
  }

  function ValueColor(e: RenderEntry, v: real): Option<Color> {
    e.colorGradient.colorFor(v)
  }

  /** `value_highlight`: strictly above the threshold; never without one. */
  function ValueHighlight(e: RenderEntry, v: real): (h: bool)
    ensures h <==> e.thresholdHighlight.Some? && v > e.thresholdHighlight.value
  {
    match e.thresholdHighlight
    case None => false
    case Some(t) => v > t
  }

  /** `max_value_hint`: the explicit hint, else the larger of the threshold and the gradient's top stop, else whichever exists. */
  function MaxValueHint(e: RenderEntry): (r: Option<real>)
    ensures e.maxValueHint.Some? ==> r == e.maxValueHint
    ensures e.maxValueHint.None? ==> (r.Some? <==> e.thresholdHighlight.Some? || e.colorGradient.maxStop.Some?)
    ensures e.maxValueHint.None? && r.Some? ==>
      && (e.thresholdHighlight.Some? ==> e.thresholdHighlight.value <= r.value)
      && (e.colorGradient.maxStop.Some? ==> e.colorGradient.maxStop.value <= r.value)
  {
    D.DerivedMax(e.maxValueHint, e.thresholdHighlight, e.colorGradient.maxStop)
  }

  /** With no explicit hint, the top of the range is never below the highlight threshold, so the highlighted region starts inside the bar's range. */
  lemma HighlightedAboveRange(e: RenderEntry, v: real)
    requires e.maxValueHint.None? && ValueHighlight(e, v)
    ensures MaxValueHint(e).Some? && v > e.thresholdHighlight.value
    ensures e.thresholdHighlight.value <= MaxValueHint(e).value
  {
  }

  /** The entry as the overlay sees it, with the summed total as its value. */
  function AsRangeEntry(e: RenderEntry): (r: RangeEntry<DiagnosticList, real>)
    ensures r.entry.labelText == Label(e) && r.entry.sortKey == e.sortKey
    ensures r.minValueHint == Some(0.0) && r.maxValueHint == MaxValueHint(e)
  {
    RangeEntry(
      Entry(Label(e), e.sortKey, ds => Total(ds, e.kind, e.smoothed), v => FormatValue(e, v),
            v => ValueColor(e, v), v => ValueHighlight(e, v)),
      MaxValueHint(e), Some(0.0))
  }
}
