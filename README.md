# iyes_perf_ui, modelled in Dafny

iyes_perf_ui is a performance overlay for the Bevy game engine. A
`PerfUiRoot` entity is one overlay, anchored in a corner of the screen.
Each entry component placed on that root (FPS, frame time, entity count,
CPU and memory usage, render times, running time, clock, fixed timestep,
window mode, resolution, cursor position and others) becomes a row:
- a simple widget shows the label and the formatted value;
- a bar widget also draws the value as a filled bar within a range.

Each frame the plugin does four things:
- it lays out changed roots;
- it rebuilds the widgets of changed entries;
- it sorts the rows by their sort keys;
- it asks every entry for its value, text, colour and highlight.

This project models that logic:
- the entry protocol (`entry.rs`) and its formatting helpers (`utils.rs`);
- the root layout (`ui/root.rs`);
- the widget set-up and update systems (`ui/widget.rs`) and the sort (`ui.rs`);
- the bar widget (`widgets/bar.rs`);
- every built-in entry in its current revision (`entries/*.rs`) and in its
  older revision (`diagnostics.rs`, `time.rs`).

The modules follow the source:

| module | file | what it holds |
|---|---|---|
| `Numeric`, `Text`, `Colors`, `Wrappers`, `World` | — | unbounded integers and reals standing for Rust's integer types; `format!` padding, `{:.p}` and `trim`; colours; `Option`/`Result`; entity ids |
| `Utils` | `src/utils.rs` | the sort-key counter (a class over the global atomic), the red-yellow-green gradients, and `format_pretty_float`, `format_pretty_int`, `format_pretty_time` and `format_pretty_time_hms` |
| `Entry` | `src/entry.rs` | an entry as a record of its hooks and their defaults |
| `Root` | `src/ui/root.rs` | `PerfUiRoot`, its default, the corner anchoring, and `setup_perf_ui` as a method on a class holding the world's components |
| `Widget` | `src/ui/widget.rs` | `setup_perf_ui_widget` as a method on a table of widget entities; `update_perf_ui_widget` and the simple widget's update as methods on the text nodes and backgrounds they rewrite |
| `UiSort` | `src/ui.rs` | `sort_perf_ui_widgets` as an in-place insertion sort on each root's children array, proved equal to a stable sort by key |
| `Bar` | `src/widgets/bar.rs` | `get_range`, the fill percentage and insets, and `update` as a method on the bar's parts |
| `Samples` | — | diagnostic histories: min, max, and the "1% low" average, with its sort and sums done in place on arrays |
| `DiagnosticEntries`, `LegacyDiagnostics` | `src/entries/diagnostics.rs`, `src/diagnostics.rs` | the diagnostics-store entries |
| `RenderEntries` | `src/entries/render.rs` | the render CPU/GPU time entries |
| `TimeEntries`, `LegacyTime` | `src/entries/time.rs`, `src/time.rs` | running time, clock, fixed timestep and overstep |
| `WindowEntries` | `src/entries/window.rs` | window mode, present mode, scale factor, resolution and cursor position |

Model decisions:
- Floats are reals. NaN appears only where the code tests for it:
  histories hold `Sample` or `NaNSample`, and a bar fill can be NaN.
- `Duration`s are natural numbers of nanoseconds.
- Colours are RGBA quadruples. Bevy's constants `Color::NONE`, `RED`,
  `GREEN` and `WHITE` carry the values Bevy gives them.
- Rust's fixed-width integers are ranges of `int`. Their wrap-around,
  truncation and saturation are written out where the source relies on them.
- Every entry formats its value with `format_pretty_float` and
  `format_pretty_int` as written (`Utils.FormatPrettyFloatAsWritten`,
  `Utils.FormatPrettyIntAsWritten`). The corrected `Utils.FormatPrettyFloat`
  and `Utils.FormatPrettyInt` are the corrected halves of the findings below;
  lemmas state where the two agree (`Utils.FormatPrettyFloatAgrees`,
  `Utils.FormatPrettyIntAgrees`, `DiagnosticEntries.CountText`).

## Model

A function that only computes (`FormatPrettyInt`, `FormatPrettyTime`, the entries' `FormatValue`, `ClockText`, `PairText` and the like) has no row of its own: the lemma that states its property does, and names it.

| member | source | states |
|---|---|---|
| Utils.SortKeyCounter.constructor | src/utils.rs:11 | the counter starts at 1 with no keys issued |
| Utils.SortKeyCounter.NextSortKey | src/utils.rs:18-20 | returns the counter's current value, which is the key of the n-th call, and advances the counter by a wrapping `i32` increment |
| Utils.IssuedKeysCount | src/utils.rs:13-20 | before the counter wraps, the i-th key (from zero) is i + 1, so keys increase in creation order |
| Utils.IssuedKeyWraps | src/utils.rs:19 | after 2^31 - 1 keys the next key is `i32::MIN`: the counter wraps |
| Utils.RygBand | src/utils.rs:25-45 | exactly one of the four branches applies, and which one is fixed by how the value compares with high, mid and low |
| Utils.RygGradientDown | src/utils.rs:23-47 | every colour has channels in [0, 1], blue 0 and alpha 1 |
| Utils.RygGradientUp | src/utils.rs:49-75 | every colour has channels in [0, 1] |
| Utils.RygUpMirrorsDown | src/utils.rs:23-75 | the rising gradient is the falling one with red and green exchanged, for every input |
| Utils.RygDownMonotone | src/utils.rs:23-47 | for ordered thresholds, a greater value never has more red or less green |
| Utils.ClampInt | src/utils.rs:106-121 | the printed integer stays within the digit count (one digit fewer when negative); a value already within it is unchanged, and one beyond it becomes the all-nines value 10^d - 1, or -(10^d - 1) when negative |
| Utils.FormatPrettyIntShape | src/utils.rs:106-128 | `FormatPrettyInt`, the corrected `format_pretty_int`, exactly fills its field, and trimmed it is the decimal text of the clamped value |
| Utils.FormatPrettyIntSaturates | src/utils.rs:115-119 | every value at or above 10^digits prints as the all-nines value |
| Utils.FormatPrettyIntSaturatesNegative | src/utils.rs:107-113 | every negative value whose magnitude reaches 10^(digits-1) prints as the negative all-nines value |
| Utils.FormatPrettyIntAgrees | src/utils.rs:106-128 | with at most 18 digits and away from `i64::MIN`, `FormatPrettyIntAsWritten` (the code as written, wrapping `i64`) prints exactly what the corrected `FormatPrettyInt` prints |
| Utils.FormatPrettyIntOverflows | src/utils.rs:116 | with 19 digits `10i64.pow(19)` wraps, and 5 prints as a 20-character negative number instead of "5" in 19 places |
| Utils.FloatWidth | src/utils.rs:80-91 | the field is the digit count (at least 1), plus the point and the decimals when precision > 0; it equals the source's `u8` sum whenever that does not wrap |
| Utils.FloatClampAsWritten | src/utils.rs:81-85 | as written, only values at or above 10^digits are replaced by the all-nines value |
| Utils.FloatClamp | src/utils.rs:81-85 | the corrected clamp replaces every value at or above the limit 10^digits - 0.5 * 10^-precision by the all-nines value, and no other |
| Utils.FloatLimitExact | src/utils.rs:81-98 | for a non-negative value, reaching that limit is exactly what makes its `{:.p}` text longer than the field, so the corrected clamp catches every value that would overflow and no other |
| Utils.FormatPrettyFloatAsWritten | src/utils.rs:79-99 | `format_pretty_float` as written: the text is at least as wide as its (`u8`) width and ends in a digit |
| Utils.FormatPrettyFloat | src/utils.rs:79-99 | the corrected formatter: the text is at least the field width and ends in a digit |
| Utils.FormatPrettyFloatWidth | src/utils.rs:79-99 | with the corrected clamp, `FormatPrettyFloat` renders a non-negative value in exactly the field width |
| Utils.FormatPrettyFloatAgrees | src/utils.rs:79-99 | whenever the width does not wrap and the value is below the limit or at or above 10^digits, the code as written prints exactly what the corrected formatter prints |
| Utils.FormatPrettyFloatOverflowsField | src/utils.rs:83-85 | as written, every non-negative value from the limit up to 10^digits prints wider than the field |
| Utils.FormatPrettyFloatKeepsValue | src/utils.rs:93-98 | below the limit the text is the `{:.p}` rendering of the value, only padded |
| Utils.NumberSuffixIffOn | src/utils.rs:93-98 | after a number rendered by `format_pretty_float` as written, a unit suffix ending in a non-digit is there exactly when it was appended |
| Utils.FormatPrettyFloatRoundsPastWidth | src/utils.rs:83-85 | as written, 9999.7 with 4 digits prints "10000"; the corrected function prints "9999" |
| Utils.FormatPrettyFloatWidthWraps | src/utils.rs:87-88 | as written, 200 digits and 55 decimals ask for a width of 256, which wraps to 0, so the text is 57 characters instead of 256 |
| Utils.Sanitize | src/utils.rs:153-157 | the reduced hours are below 100 and the minutes and seconds below 60; the fraction has at most `precision` digits |
| Utils.ClockText | src/utils.rs:159-172 | the `H:MM:SS` part is always eight characters |
| Utils.FormatPrettyTimeHmsWidth | src/utils.rs:152-175 | `FormatPrettyTimeHms` prints sub-second nanos in 8 characters, or 9 + precision with decimals |
| Utils.FormatPrettyTimeHmsLayout | src/utils.rs:158-174 | the hours field shows exactly when the reduced hours are non-zero; the minutes field shows exactly when hours or minutes are non-zero |
| Utils.FormatPrettyTimeHmsHours | src/utils.rs:154-172 | hours below 100 are printed as given, and the hours field shows exactly when they are non-zero |
| Utils.FormatPrettyTimeFields | src/utils.rs:139-149 | up to 99:59:59, the hours, minutes and seconds `FormatPrettyTime` prints add back up to the duration's whole seconds |
| Utils.FormatPrettyTimeSaturates | src/utils.rs:141-147 | beyond 99:59:59 every duration prints as "99:59:59", then a point and `precision` nines |
| Utils.FormatPrettyTimeWidth | src/utils.rs:138-150 | `FormatPrettyTime` prints every duration, saturated or not, in the same width |
| Numeric.WrapU8 | src/utils.rs:88 | `u8` addition in a release build: the result is the `u8` congruent to the sum modulo 2^8, which is the sum itself when it fits |
| Numeric.WrapI64 | src/utils.rs:107-119 | the result is an `i64` congruent to the exact value modulo 2^64 |
| Numeric.WrappingPow10I64 | src/utils.rs:107-119 | `10i64.pow(n)` is always an `i64` congruent to 10^n modulo 2^64, and exact up to n = 18 |
| Numeric.SaturatingU32 | src/entries/diagnostics.rs:1084 | `as u32` truncates toward zero, clamps negatives to 0, and gives `u32::MAX` for every value at or above it |
| Numeric.CeilToNat | src/entries/diagnostics.rs:854 | `ceil() as usize` is 0 for non-positive inputs, else the least integer at or above the input |
| Numeric.RoundHalfEven | src/utils.rs:93-98 | the rounding `{:.p}` applies lies within one half of its input, and ties go to the even integer |
| Text.PadLeft | src/utils.rs:93-98 | `{:>w}` ends with the text, preceded by just enough spaces to fill `w`, and never cuts the text |
| Text.ZeroPad | src/utils.rs:160-164 | `{:0w}` is all digits, at least `w` long, and reads back as the number |
| Text.FixedText | src/entries/window.rs:348-365 | `{:.p}` text is non-empty and ends in a digit |
| Text.FixedTextValue | src/utils.rs:93-98 | `{:.p}` text starts with '-' exactly for a negative value, and after the sign is the unsigned rendering of the value scaled by 10^p and rounded half to even |
| Text.UnsignedFixed | src/utils.rs:93-98 | the integer digits, then the point and exactly `p` fraction digits |
| Text.UnsignedFixedValue | src/utils.rs:93-98 | with decimals, the printed digits spell the scaled number: the integer part times 10^p plus the fraction digits give it back |
| Text.UnsignedWholeValue | src/utils.rs:93-98 | without decimals, the printed digits read back as the rounded number |
| Text.FixedTextWidth | src/utils.rs:93-98 | a value whose rounding stays below 10^(d+p) needs at most d integer digits |
| Text.TrimPadLeft | src/widgets/bar.rs:406 | trimming removes the right-alignment padding |
| Text.TrimUnchanged | src/widgets/bar.rs:406 | text without surrounding whitespace is left unchanged by `trim` |
| Text.TrimIdempotent | src/widgets/bar.rs:406 | trimming twice is trimming once |
| Text.DecimalDigits | src/utils.rs:123-127 | decimal text is non-empty digits without a leading zero |
| Text.ParseDecimalDigits | src/utils.rs:123-127 | the decimal text reads back as the number |
| Text.IntText | src/utils.rs:123-127 | `{}` of an integer starts with '-' exactly when it is negative |
| Text.IntTextValue | src/utils.rs:123-127 | after the sign, `{}` of an integer is digits that read back as its magnitude |
| Entry.WithDefaults | src/entry.rs:52-81 | an entry with the default hooks shows its `Debug` text, has no colour and is never highlighted |
| Entry.Observe | src/entry.rs:41-81 | the hooks are consulted exactly when a value was fetched, and then all on that value |
| Root.Top | src/ui/root.rs:155-160 | the top edge is anchored at the margin exactly for the top corners |
| Root.Bottom | src/ui/root.rs:161-166 | the bottom edge is anchored at the margin exactly for the bottom corners |
| Root.Left | src/ui/root.rs:167-172 | the left edge is anchored at the margin exactly for the left corners |
| Root.Right | src/ui/root.rs:173-178 | the right edge is anchored at the margin exactly for the right corners |
| Root.Anchoring | src/ui/root.rs:155-178 | of each pair of opposite edges one is at the margin and the other automatic, and the anchored edges give the corner back |
| Root.DefaultRoot | src/ui/root.rs:126-151 | the default overlay has the source's constants: "N/A" error text, labels shown, vertical layout, 128 px values column, top-right at 16 px, topmost z-index, default fonts |
| Root.DefaultAnchoring | src/ui/root.rs:126-178 | a default overlay is 16 px from the top and right edges |
| Root.RootStyle | src/ui/root.rs:200-214 | the node flows in a row exactly for a horizontal layout, takes the root's padding, and is anchored by the corner and margin |
| Root.Configured | src/ui/root.rs:215-224 | after set-up the entity has the root's background and node; the name "PerfUi" is added only when one of the two components was missing |
| Root.SetupOne | src/ui/root.rs:200-224 | setting up one root leaves it configured from its settings and every other entity unchanged |
| Root.SetupAllEffect | src/ui/root.rs:192-225 | each changed root is configured from its own settings, and every other entity is unchanged |
| Root.RootWorld.constructor | src/ui/root.rs:190 | the world holds the given names, backgrounds and nodes |
| Root.RootWorld.SetupPerfUi | src/ui/root.rs:187-226 | the components afterwards are those of the changed roots set up in query order |
| Widget.FirstOfRoot | src/ui/widget.rs:104-106 | `find` returns the first widget of the root, or nothing when there is none |
| Widget.Without | src/ui/widget.rs:103-123 | the despawned entities are gone and every other widget stays |
| Widget.Spawned | src/ui/widget.rs:125-135 | each changed root gets a fresh widget entity, tagged with the root and the entry's sort key |
| Widget.TargetsInValidTable | src/ui/widget.rs:103-110 | in a valid table a widget is despawned exactly when its root is listed |
| Widget.SetupMembers | src/ui/widget.rs:91-137 | after set-up the widgets are the old ones whose root was neither removed nor changed, plus one new one per changed root |
| Widget.SetupKeepsTableValid | src/ui/widget.rs:91-137 | set-up keeps widget entities distinct and each root with at most one widget |
| Widget.SetupRebuildsChanged | src/ui/widget.rs:116-136 | every changed root ends with exactly its new widget |
| Widget.SetupKeepsOthers | src/ui/widget.rs:100-110 | a root that did not change keeps its widget unless its entry was removed |
| Widget.SetupWithoutChanges | src/ui/widget.rs:84-89 | with nothing changed or removed, set-up would change nothing, so the run condition loses nothing |
| Widget.WidgetTable.constructor | src/ui/widget.rs:94 | the table holds the given widgets and next entity id |
| Widget.WidgetTable.Setup | src/ui/widget.rs:91-137 | the new table is the set-up result of the old one, and one entity id is used per changed root |
| Widget.SimpleChange | src/ui/widget.rs:282-284 | a simple widget's sort key is its entry's |
| Widget.RowView | src/ui/widget.rs:254-271 | with a value, the text is its formatting, the colour is the entry's or the default, and the font is the highlight font exactly when highlighted; without one, the error text, colour and value font |
| Widget.RowHighlighted | src/ui/widget.rs:253-265 | a row is highlighted exactly when a value was fetched and the entry highlights it |
| Widget.TickShowsOwnRow | src/ui/widget.rs:241-280 | after the corrected update, each text node shows its own widget's row, and a node whose root is incomplete is untouched |
| Widget.TickSetsOwnBackground | src/ui/widget.rs:272-278 | each updated widget's background is its own row's |
| Widget.TickKeepsBackgroundKeys | src/ui/widget.rs:272 | updating never adds or removes widget backgrounds |
| Widget.TickAsWrittenShowsLast | src/ui/widget.rs:252 | as written, every text node of the entry type ends showing the last complete widget's row |
| Widget.SharedTextNodes | src/ui/widget.rs:252 | two roots each with an entry of one type: as written both nodes read "B"; corrected they read "A" and "B" |
| Widget.SimpleWidgets.constructor | src/ui/widget.rs:165-169 | the state holds the given text nodes and backgrounds |
| Widget.SimpleWidgets.UpdateWidgetAsWritten | src/ui/widget.rs:241-280 | the simple widget's update as written: every tagged text node is rewritten |
| Widget.SimpleWidgets.UpdateWidget | src/ui/widget.rs:241-280 | the corrected update rewrites only the widget's own node |
| Widget.SimpleWidgets.UpdatePerfUiWidgets | src/ui/widget.rs:143-155 | visiting the widgets in order and skipping incomplete roots yields the corrected tick |
| Widget.SimpleWidgets.UpdatePerfUiWidgetsAsWritten | src/ui/widget.rs:143-155 | the same visit with the update as written |
| UiSort.InsertPos | src/ui.rs:23 | the insertion point follows every key not greater than the new child's and precedes the first greater one |
| UiSort.SortByKeySorted | src/ui.rs:23 | after sorting the keys are non-decreasing and the children are a permutation of the old ones |
| UiSort.SortByKeyStable | src/ui.rs:23 | children with equal keys keep their relative order |
| UiSort.SortByKeyKeepsSorted | src/ui.rs:23 | already sorted children are left as they are |
| UiSort.SortByKeyIdempotent | src/ui.rs:23 | sorting twice is sorting once |
| UiSort.InsertSorted | src/ui.rs:23 | inserting into sorted children keeps them sorted and adds exactly the new child |
| UiSort.InsertWithKey | src/ui.rs:23 | inserting a child puts it after every other child with its key |
| UiSort.SortChildren | src/ui.rs:22-24 | the children array ends as the stable sort of its old contents |
| UiSort.InsertNext | src/ui.rs:23 | one insertion step places the next child among the sorted prefix and leaves the rest alone |
| UiSort.SortPerfUiWidgets | src/ui.rs:18-25 | every changed root's children are sorted by key |
| Bar.BarChange | src/widgets/bar.rs:428-430 | a bar row's sort key is its entry's |
| Bar.GetRange | src/widgets/bar.rs:119-151 | when the gradient's stops coincide, the range is the hints, and exists only when both do; otherwise each end is the wider of the stop and the hint, and exists when either does |
| Bar.BarRange | src/widgets/bar.rs:119-151 | a hint that fails to convert to `f64` counts as absent: with coinciding stops a range exists exactly when both hints convert, and with no bottom stop and no usable bottom hint there is none |
| Bar.FillPct | src/widgets/bar.rs:379-380 | the fill is NaN only for an empty range at the value; otherwise it is 0 to 100, proportional inside the range whichever way it runs, and clamped outside it |
| Bar.FillPctMonotone | src/widgets/bar.rs:379-380 | over an increasing range, a greater value never fills less |
| Bar.FillInsets | src/widgets/bar.rs:381-394 | the insets leave exactly the fill percentage, on the fixed side for left and right fills and evenly split for a centred fill |
| Bar.BarInsets | src/widgets/bar.rs:378-400 | without a value or a range the bar is empty; otherwise the insets are percentages from 0 to 100 |
| Bar.BarText | src/widgets/bar.rs:403-424 | the text is the trimmed formatting (or the trimmed error text), with the entry's colour and the highlight or value font |
| Bar.BarTextIsTrimmedRow | src/widgets/bar.rs:403-424 | a bar's text is the simple row's text trimmed, with the same colour and font |
| Bar.BarTextPaddingFree | src/widgets/bar.rs:406 | padding the bar text and trimming again gives it back |
| Bar.BarParts.constructor | src/widgets/bar.rs:225-312 | a spawned bar is empty and colourless, and has a text node exactly when the text position is not `NoText`; that node starts with the error text |
| Bar.BarParts.Update | src/widgets/bar.rs:357-425 | the background follows the highlight; the bar colour changes only when there is a value; the insets and text are recomputed; an overridden text colour is kept |
| Samples.MinSample | src/diagnostics.rs:554-566 | the minimum over the non-NaN samples: absent exactly when all are NaN, otherwise one of them and at most each |
| Samples.MaxSample | src/diagnostics.rs:656-668 | the maximum over the non-NaN samples: absent exactly when all are NaN, otherwise one of them and at least each |
| Samples.Finite | src/entries/diagnostics.rs:841-849 | filtering keeps no more samples than there are |
| Samples.FiniteMembers | src/entries/diagnostics.rs:841-849 | the kept values are exactly the non-NaN samples |
| Samples.SortRealsSorted | src/entries/diagnostics.rs:859 | the sorted values ascend and are a permutation of the input |
| Samples.SortedUnique | src/entries/diagnostics.rs:859 | any two ascending orderings of the same values are equal, so an unstable sort has one result |
| Samples.Lowest | src/entries/diagnostics.rs:861 | `take(k)` keeps k values, or all when there are fewer |
| Samples.PctLowValue | src/entries/diagnostics.rs:837-863 | there is no value exactly when there are no finite samples or the bottom fraction rounds up to none |
| Samples.PctLow | src/entries/diagnostics.rs:837-863 | the method computes the specified low-percentile average |
| Samples.CollectFinite | src/entries/diagnostics.rs:841-849 | collecting keeps the non-NaN samples in order |
| Samples.SumFirst | src/entries/diagnostics.rs:861 | the sum of the first k values, or of all when there are fewer |
| Samples.SortUnstable | src/entries/diagnostics.rs:859 | the array ends ascending with the same values |
| Samples.SiftDown | src/entries/diagnostics.rs:859 | one insertion step moves the element to its place and shifts the greater ones up |
| Samples.PctLowAtLeastWorst | src/entries/diagnostics.rs:837-863 | the low-percentile average is at least the worst frame rate and at most the k-th lowest value |
| Samples.PctLowBeyondCount | src/entries/diagnostics.rs:854-862 | a fraction asking for more values than there are averages all of them, but still divides by the requested count |
| Samples.MeanOfSortedPrefix | src/entries/diagnostics.rs:861-862 | the mean of an ascending prefix lies between its first and last values |
| Samples.MinBelowSorted | src/entries/diagnostics.rs:711-724 | the worst frame rate is at or below every sorted finite value |
| Samples.FiniteNonEmpty | src/entries/diagnostics.rs:851-853 | some value is kept exactly when some sample is not NaN |
| DiagnosticEntries.Label | src/entries/diagnostics.rs:642-648 | the custom label when set, else the entry type's own, never empty |
| DiagnosticEntries.Reading | src/entries/diagnostics.rs:649-658 | a missing diagnostic gives no reading; otherwise it is the smoothed or latest value as configured |
| DiagnosticEntries.Count | src/entries/diagnostics.rs:1080-1085 | a count exists exactly when the reading does, and is that reading saturated into `u32` |
| DiagnosticEntries.CountAsI64 | src/entries/diagnostics.rs:1086-1091 | `*value as i64` is the count itself for every value a `u32` count can take |
| DiagnosticEntries.UpdateValue | src/entries/diagnostics.rs:649-1335 | the worst entries take the min or max of the history, the low-percentile entry its average, the FPS-average entry the FPS diagnostic's average, the frame and entity counts their count, and the others the configured reading of their diagnostic |
| DiagnosticEntries.MissingDiagnostic | src/entries/diagnostics.rs:654-656 | an entry whose diagnostic is missing shows no value |
| DiagnosticEntries.FormatPercent | src/entries/diagnostics.rs:1149-1156 | percentages, formatted by `format_pretty_float` as written, end in "%" right after a digit |
| DiagnosticEntries.CountText | src/entries/diagnostics.rs:1058-1063 | `FormatValue` of a frame or entity count is the corrected `format_pretty_int` of the count, exactly filling its field, for up to 18 digits |
| DiagnosticEntries.FrameTimeUnits | src/entries/diagnostics.rs:926-935 | frame-time text (`FormatValue` of the frame-time entries) ends in " ms" exactly when units are shown |
| DiagnosticEntries.MemUsageUnits | src/entries/diagnostics.rs:1267-1276 | process-memory text (`FormatValue` of the memory entry) ends in " GiB" exactly when units are shown |
| DiagnosticEntries.ValueColor | src/entries/diagnostics.rs:665-670 | the gradient's colour for the value, and none for the frame count |
| DiagnosticEntries.ValueHighlight | src/entries/diagnostics.rs:671-678 | highlighted exactly when strictly beyond the threshold on the bad side (below for frame rates, above otherwise); never without a threshold |
| DiagnosticEntries.ThresholdNotHighlighted | src/entries/diagnostics.rs:671-678 | a value exactly at the threshold is not highlighted |
| DiagnosticEntries.DerivedMax | src/entries/diagnostics.rs:685-694 | the explicit hint wins; otherwise the larger of threshold and top stop, present when either is |
| DiagnosticEntries.MaxValueHint | src/entries/diagnostics.rs:1111-1184 | CPU and system-memory percentages top out at 100; the entity count works in `u32`; the others derive the hint |
| DiagnosticEntries.MinValueHint | src/entries/diagnostics.rs:695-697 | every ranged entry starts at 0 |
| DiagnosticEntries.MaxHintCoversThreshold | src/entries/diagnostics.rs:685-694 | without an explicit hint the range's top is never below the highlight threshold |
| DiagnosticEntries.AsEntry | src/entries/diagnostics.rs:638-682 | the entry shows its label and sort key, and its value, text, colour and highlight hooks are the entry type's own |
| DiagnosticEntries.AsRangeEntry | src/entries/diagnostics.rs:684-698 | the ranged entry starts its range at 0 |
| LegacyDiagnostics.Label | src/diagnostics.rs:500-506 | the custom label when set, else the entry type's own, never empty |
| LegacyDiagnostics.UpdateValue | src/diagnostics.rs:507-796 | the same readings as the current revision, with the system-wide CPU and memory diagnostics |
| LegacyDiagnostics.WorstIsRecordedMinimum | src/diagnostics.rs:554-566 | the worst frame rate is absent exactly when every sample is NaN, else a recorded sample at most each |
| LegacyDiagnostics.Threshold | src/diagnostics.rs:532-537 | every entry but the frame count has a highlight threshold |
| LegacyDiagnostics.ValueColor | src/diagnostics.rs:523-531 | coloured exactly when enabled (never for frame counts); frame rates use the falling gradient, the others the rising one over their thresholds |
| LegacyDiagnostics.ValueHighlight | src/diagnostics.rs:532-537 | highlighted when enabled and at or beyond the threshold on the bad side |
| LegacyDiagnostics.ThresholdHighlighted | src/diagnostics.rs:532-537 | unlike the current revision, a value at the threshold is highlighted whenever highlighting is on |
| LegacyDiagnostics.HighlightMonotone | src/diagnostics.rs:532-537 | a value further on the bad side of a highlighted one is highlighted too |
| LegacyDiagnostics.FrameTimeUnits | src/diagnostics.rs:615-624 | `FormatValue` of a frame-time entry ends in " ms" exactly when units are shown |
| RenderEntries.Label | src/entries/render.rs:159-165 | the custom label, else "Render CPU Time" or "Render GPU Time" |
| RenderEntries.Contributions | src/entries/render.rs:170-189 | each diagnostic offers its reading exactly when its path is under "render" and ends in the kind's suffix |
| RenderEntries.AddUpIsSum | src/entries/render.rs:170-189 | the running total is the sum of the offered readings, absent when none is offered |
| RenderEntries.TotalIsSumOfReadings | src/entries/render.rs:166-190 | the total is the sum of the matching readings, and absent exactly when no matching diagnostic has one |
| RenderEntries.OtherPathsIgnored | src/entries/render.rs:171-174 | diagnostics on other paths never change the total |
| RenderEntries.UpdateValue | src/entries/render.rs:166-190 | the loop computes the specified total |
| RenderEntries.Visit | src/entries/render.rs:172-187 | one visited diagnostic advances the running total by its reading when its path matches, and leaves it unchanged otherwise |
| RenderEntries.FormatUnits | src/entries/render.rs:191-200 | `FormatValue` ends in " ms" exactly when units are shown |
| RenderEntries.ValueHighlight | src/entries/render.rs:207-214 | highlighted exactly when strictly above a set threshold |
| RenderEntries.MaxValueHint | src/entries/render.rs:221-230 | the explicit hint, else the larger of threshold and top stop when either exists |
| RenderEntries.HighlightedAboveRange | src/entries/render.rs:207-230 | a highlighted value with no explicit hint lies above a threshold that is inside the range |
| RenderEntries.AsRangeEntry | src/entries/render.rs:155-234 | the entry's label, sort key and hints, with its range starting at 0 |
| TimeEntries.RunningTimeLabel | src/entries/time.rs:180-186 | the custom label, else "Running Time" |
| TimeEntries.RunningTimeValue | src/entries/time.rs:190-200 | the elapsed time since the start, or since launch without one; a start in the future panics |
| TimeEntries.RunningTimeTextShape | src/entries/time.rs:201-215 | `RunningTimeText`: as seconds the text ends in " s" exactly with units; as `H:MM:SS` it has a fixed width |
| TimeEntries.ClockLabel | src/entries/time.rs:222-232 | the custom label, else "Clock" for local time and "Clock (UTC)" otherwise |
| TimeEntries.UtcClock | src/entries/time.rs:350-358 | a UTC reading exists exactly when the system time is known, and is a valid time of day |
| TimeEntries.UtcClockIsTimeOfDay | src/entries/time.rs:350-358 | the fields add back up to the seconds since midnight, and the nanoseconds are kept |
| TimeEntries.DayDecomposition | src/entries/time.rs:353-356 | hours mod 24, minutes mod 60 and seconds mod 60 recombine into the seconds of the day |
| TimeEntries.ClockValue | src/entries/time.rs:236-246 | the local time when shown (the `chrono` feature, UTC not preferred), else UTC |
| TimeEntries.UtcClockTextShape | src/entries/time.rs:247-253 | a UTC reading prints in a fixed width, with hours shown exactly after the first hour of the day |
| TimeEntries.ClockTextShape | src/entries/time.rs:247-253 | `ClockText` prints a time of day in a fixed width, with hours shown exactly when non-zero |
| TimeEntries.FixedTimeStepLabel | src/entries/time.rs:259-265 | the custom label, else "Fixed Time Step" |
| TimeEntries.RateTimesPeriod | src/entries/time.rs:269-274 | `StepNumber`: the step as a rate in Hz times the step in ms is always 1000 |
| TimeEntries.TimeStepUnits | src/entries/time.rs:275-290 | `TimeStepText` ends in " Hz" exactly for a rate with units, and in " ms" exactly for a period with units |
| TimeEntries.FixedOverstepLabel | src/entries/time.rs:296-302 | the custom label, else "Fixed Overstep" |
| TimeEntries.OverstepUnits | src/entries/time.rs:316-328 | `OverstepText` ends in "%" exactly for a percentage, and in " ms" exactly for a duration with units |
| TimeEntries.OverstepRange | src/entries/time.rs:330-337 | the range is 0 to 100 |
| TimeEntries.OverstepWithinRange | src/entries/time.rs:306-337 | `OverstepValue`: while less than one step has built up, the percentage stays in the announced range |
| LegacyTime.RunningTimeValue | src/time.rs:91-101 | the elapsed time since the start, or since launch without one; a start in the future panics |
| LegacyTime.RunningTimeLabelAgrees | src/time.rs:85-87 | the older entry's fixed label is the current entry's default label |
| LegacyTime.ClockLabel | src/time.rs:123-129 | "Clock" exactly with local time, else "Clock (UTC)" |
| LegacyTime.ClockValue | src/time.rs:133-157 | the local time with `chrono`, else the UTC time of day |
| LegacyTime.ClockAgrees | src/time.rs:123-163 | the older clock is the current one with no custom label and UTC not preferred |
| LegacyTime.UtcReading | src/time.rs:149-155 | the UTC reading's fields are in range and add up to the seconds since midnight |
| WindowEntries.SelectWindow | src/entries/window.rs:225-229 | a named window is read when it exists; otherwise the primary window, only when exactly one exists |
| WindowEntries.SinglePrimarySelected | src/entries/window.rs:228 | with one primary window, the default selection is that window |
| WindowEntries.TwoPrimariesNone | src/entries/window.rs:228 | two primary windows make the default selection fail |
| WindowEntries.NamedWindowIgnoresPrimary | src/entries/window.rs:225-226 | a named window is read whatever the primary marking says |
| WindowEntries.WindowModeLabel | src/entries/window.rs:211-217 | the custom label, else "Window Mode" |
| WindowEntries.WindowModeValue | src/entries/window.rs:221-230 | the selected window's mode, present exactly when a window is selected |
| WindowEntries.WindowModeAsEntry | src/entries/window.rs:204-231 | the entry keeps the default hooks, showing the mode's `Debug` text |
| WindowEntries.PresentModeLabel | src/entries/window.rs:240-246 | the custom label, else "Present Mode" |
| WindowEntries.PresentModeValue | src/entries/window.rs:250-259 | the selected window's present mode, present exactly when a window is selected |
| WindowEntries.PresentModeAsEntry | src/entries/window.rs:233-260 | the entry keeps the default hooks, showing the mode's `Debug` text |
| WindowEntries.ScaleFactorLabel | src/entries/window.rs:269-275 | the custom label, else "Scale Factor" |
| WindowEntries.ScaleFactorValue | src/entries/window.rs:279-288 | the selected window's scale factor, present exactly when a window is selected |
| WindowEntries.ScaleFactorTextWidth | src/entries/window.rs:289-294 | `ScaleFactorText` below the float limit fills exactly its field; from the limit up to 10^digits it prints wider than the field |
| WindowEntries.ScaleFactorPastField | src/entries/window.rs:289-294 | with the default 2 digits and 2 decimals, 99.996 prints "100.00", 6 characters in a 5-character field |
| WindowEntries.ScaleFactorAsEntry | src/entries/window.rs:262-295 | the entry's value is the scale factor and its text `format_pretty_float` as written; colour and highlight are the defaults |
| WindowEntries.DefaultPair | src/entries/window.rs:134-201 | the resolution separates with "x" and no axis names; the cursor uses ", " with axis names; both use precision 0 and no units |
| WindowEntries.PairLabel | src/entries/window.rs:304-310 | the custom label, else "Resolution" or "Cursor Position" |
| WindowEntries.PairValue | src/entries/window.rs:314-403 | the resolution exists exactly when a window is selected; the cursor is the selected window's, physical or logical, when inside it |
| WindowEntries.TemplateLayout | src/entries/window.rs:348-365 | each of the four `Template` formats is coordinate X, the separator, then coordinate Y |
| WindowEntries.PairTextLayout | src/entries/window.rs:344-366 | `PairText` is the two coordinates around the separator |
| WindowEntries.AxisIffShown | src/entries/window.rs:348-365 | the text starts with "X: " exactly when axis names are shown |
| WindowEntries.UnitsIffShown | src/entries/window.rs:348-365 | the text ends with " px" exactly when units are shown |
| WindowEntries.PairAsEntry | src/entries/window.rs:297-427 | the entry's value and text are the pair's; colour and highlight are the defaults |

## Left out

- Floating point: `f32`/`f64` are reals. Rounding error, the `f64 -> f32` casts before comparisons and colour look-ups, and NaN (except in histories and the bar fill) are not modelled.
- `ColorGradient` is not part of this model. Its stops and colours are inputs: an optional top and bottom stop and a colour function.
- ECS plumbing is not modelled: commands, queries, change detection, the hierarchy of wrapper nodes, node sizes, fonts and font sizes. Set-up and update are modelled on the components they write.
- The missing-default-font error log in `setup_perf_ui` is left out. It is a side effect only.
- The `values_col_width` and label nodes of a spawned widget are left out. They are layout only.
- `values_col_width` is an `f32` in `src/ui/root.rs` and `src/ui/widget.rs`, but is read as an `Option` in `src/widgets/bar.rs`. The model keeps the `f32` (a real, default 128).
- The run conditions `rc_setup_perf_ui`, `rc_setup_perf_ui_widget` and `rc_sort_perf_ui_widgets` are not separate members. Their systems take the changed entities as input, and with none changed they change nothing (Widget.SetupWithoutChanges).
- The bar's outer, border and height/length styling is left out. It is layout only.
- Widget.WidgetTable.Setup assumes the query yields each changed root once. It models despawning as removal from the table.
- `sort_perf_ui_widgets` is modelled as an insertion sort. `sort_by_key` is a stable sort, and the model proves its result equal to the stable sort by key. The key of a child without `PerfUiSortKey` is 0.
- Samples.SortUnstable sorts reals. `FloatOrd` orders NaN, but NaNs are filtered out before the sort.
- The sum in `PctLow` is an exact real sum, not an `f32` accumulation.
- RenderEntries.UpdateValue sees the diagnostics store as a sequence in iteration order. The order of a hash map is not modelled.
- Durations are natural numbers of nanoseconds. `as_secs_f64` and `as_secs_f32` are exact, and so is the Hz conversion.
- The system clock, the elapsed time and the local time of day (the `chrono` crate) are inputs. The system time before the epoch is an absent input.
- TimeEntries.OverstepValue and TimeEntries.StepNumber require a positive timestep. Bevy never lets it be zero.
- `WindowMode` is modelled without the monitor selection payload of its fullscreen variants. Its `Debug` text and that of `PresentMode` are inputs to the entries.
- The `width` field of the resolution and cursor entries is never read by their formatting in the source, so the model keeps it without using it.
- The sort-key counter's atomic memory ordering is not modelled. The counter is one object, updated by one call at a time.
- Widget.SimpleWidgets.UpdateWidgetAsWritten computes the row (value, text, colour, font, background) once per widget and writes it to every text node. The source calls `update_value` again for each node within the same system run; the model takes every such call to read the same world and give the same row.
- Debug-build panics on integer overflow are not modelled. The model follows the release build, which wraps (see Findings).

## Findings

| source | as written | input that shows it | evidently intended | confidence | as-written member | corrected member |
|---|---|---|---|---|---|---|
| src/utils.rs:116 | `10i64.pow(digits)` overflows for 19 or more digits; a release build wraps and clamps a small positive value to a large negative one | `format_pretty_int(19, 5)` | "5" right-aligned in 19 places | not executed | Utils.FormatPrettyIntOverflows | Utils.FormatPrettyIntShape |
| src/utils.rs:83-85 | only values at or above 10^digits are clamped, so a value just below rounds up to one more digit than the field | `format_pretty_float(4, 0, 9999.7)` gives "10000" | "9999" | not executed | Utils.FormatPrettyFloatRoundsPastWidth | Utils.FormatPrettyFloatWidth |
| src/utils.rs:87-88 | the width `digits + precision + 1` is computed in `u8` and wraps | `format_pretty_float(200, 55, 0.0)` gets width 0 and prints 57 characters | a field of 256 characters | not executed | Utils.FormatPrettyFloatWidthWraps | Utils.FloatWidth |
| src/ui/widget.rs:252 | the simple widget's update rewrites every text node of its entry type, not only its own | two roots each with an FPS entry showing different values | each node shows its own root's entry | not executed | Widget.SharedTextNodes | Widget.TickShowsOwnRow |
