/**
 * The contract every Perf UI entry (a row of the overlay) fulfils: a
 * label, a sort key, a way to fetch the current value from the world,
 * and the hooks that turn a fetched value into text, colour and
 * highlighting. The trait's default hooks are modelled by `WithDefaults`.
 */
module Entry {
  import opened Wrappers
  import opened Numeric
  import opened Colors

  /**
   * An entry whose value is read from a world context of type `C` and
   * has type `V`. The hooks are the trait's methods with the entry's
   * own configuration already applied.
   */
  datatype Entry<!C, !V> = Entry(
    labelText: string,
    sortKey: I32,
    updateValue: C -> Option<V>,
    formatValue: V -> string,
    valueColor: V -> Option<Color>,
    valueHighlight: V -> bool)

  /**
   * An entry that also announces the range its values are expected to
   * lie in; range widgets may clip values outside it.
   */
  datatype RangeEntry<!C, !V> = RangeEntry(
    entry: Entry<C, V>,
    maxValueHint: Option<V>,
    minValueHint: Option<V>)

  /**
   * An entry that keeps the trait's default hooks: values are shown with
   * their `Debug` rendering, in the default colour, never highlighted.
   */
  function WithDefaults<C, V(!new)>(labelText: string, sortKey: I32, update: C -> Option<V>, debug: V -> string): (e: Entry<C, V>)
    ensures e.labelText == labelText && e.sortKey == sortKey && e.updateValue == update
    ensures forall v :: e.formatValue(v) == debug(v)
    ensures forall v :: e.valueColor(v).None?
    ensures forall v :: !e.valueHighlight(v)
  {
    Entry(labelText, sortKey, update, debug, _ => None, _ => false)
  }

  /** What the value-dependent hooks say about one fetched value. */
  datatype Shown = Shown(text: string, color: Option<Color>, highlight: bool)

  /**
   * One tick of the entry protocol: fetch the value; only when there is
   * one, ask the three hooks about that same value.
   */
  function Observe<C, V(!new)>(e: Entry<C, V>, ctx: C): (r: Option<Shown>)
    ensures r.None? <==> e.updateValue(ctx).None?
    ensures r.Some? ==> exists v :: e.updateValue(ctx) == Some(v)
                          && r.value == Shown(e.formatValue(v), e.valueColor(v), e.valueHighlight(v))
  {
    match e.updateValue(ctx)
    case None => None
    case Some(v) => Some(Shown(e.formatValue(v), e.valueColor(v), e.valueHighlight(v)))
  }
}
