/**
 * The widget framework: the table of widget entities of one widget type
 * (each tagged with the root it belongs to), the setup system that
 * rebuilds it when roots or widget components change, and the per-tick
 * update of the simple widget (one text node per row).
 */
module Widget {
  import opened Wrappers
  import opened Numeric
  import opened Colors
  import opened World
  import opened Entry
  import opened Root

  /** A widget's top-level entity with its `PerfUiWidgetMarker` (the root) and `PerfUiSortKey`. */
  datatype WidgetRec = WidgetRec(id: Entity, root: Entity, sortKey: I32)

  /** A root whose widget component or `PerfUiRoot` changed, with the sort key its widget reports. */
  datatype Change = Change(root: Entity, sortKey: I32)

  /** The index of the first widget of `root`, or `|ws|` when it has none (`iter().find`). */
  function FirstOfRoot(ws: seq<WidgetRec>, root: Entity): (k: nat)
    ensures k <= |ws|
    ensures forall j :: 0 <= j < k ==> ws[j].root != root
    ensures k < |ws| ==> ws[k].root == root
  {
    if ws == [] then 0
    else if ws[0].root == root then 0
    else 1 + FirstOfRoot(ws[1..], root)
  }

  /** The widget of `root`, when it has one. */
  function WidgetOf(ws: seq<WidgetRec>, root: Entity): Option<WidgetRec> {
    var k := FirstOfRoot(ws, root);
    if k < |ws| then Some(ws[k]) else None
  }

  /** The entities despawned on behalf of `roots`: the first widget of each. */
  function Targets(ws: seq<WidgetRec>, roots: seq<Entity>): set<Entity> {
    if roots == [] then {}
    else
      var k := FirstOfRoot(ws, roots[|roots| - 1]);
      Targets(ws, roots[..|roots| - 1]) + (if k < |ws| then {ws[k].id} else {})
  }

  /** The widgets left once the entities `ids` are despawned, in their order. */
  function Without(ws: seq<WidgetRec>, ids: set<Entity>): (r: seq<WidgetRec>)
    ensures forall w :: w in r <==> w in ws && w.id !in ids
  {
    if ws == [] then []
    else
      var w := ws[|ws| - 1];
      Without(ws[..|ws| - 1], ids) + (if w.id in ids then [] else [w])
  }

  function RootsOf(changed: seq<Change>): (r: seq<Entity>)
    ensures |r| == |changed| && forall i :: 0 <= i < |r| ==> r[i] == changed[i].root
  {
    seq(|changed|, i requires 0 <= i < |changed| => changed[i].root)
  }

  /** The widgets spawned for the changed roots, with new entities numbered from `next` on. */
  function Spawned(changed: seq<Change>, next: Entity): (r: seq<WidgetRec>)
    ensures |r| == |changed|
    ensures forall i :: 0 <= i < |r| ==> r[i] == WidgetRec(next + i, changed[i].root, changed[i].sortKey)
  {
    seq(|changed|, i requires 0 <= i < |changed| => WidgetRec(next + i, changed[i].root, changed[i].sortKey))
  }

  /**
   * The widget table after `setup_perf_ui_widget`. Its commands take
   * effect after the system, so both loops search the table as it was.
   */
  function SetupResult(ws: seq<WidgetRec>, removed: seq<Entity>, changed: seq<Change>, next: Entity): seq<WidgetRec> {
    Without(ws, Targets(ws, removed) + Targets(ws, RootsOf(changed))) + Spawned(changed, next)
  }

  /** Widget entities are distinct and already allocated, and no root has two widgets. */
  predicate TableValid(ws: seq<WidgetRec>, next: Entity) {
    && (forall i, j :: 0 <= i < j < |ws| ==> ws[i].id != ws[j].id && ws[i].root != ws[j].root)
    && (forall i :: 0 <= i < |ws| ==> ws[i].id < next)
  }

  /** A root listed at most once among the changes (the query yields each entity once). */
  predicate DistinctRoots(changed: seq<Change>) {
    forall i, j :: 0 <= i < j < |changed| ==> changed[i].root != changed[j].root
  }

  /** In a valid table a widget's entity is despawned exactly when its root is listed. */
  lemma {:induction false} TargetsInValidTable(ws: seq<WidgetRec>, next: Entity, roots: seq<Entity>, w: WidgetRec)
    requires TableValid(ws, next) && w in ws
    ensures w.id in Targets(ws, roots) <==> w.root in roots
  {
    if roots != [] {
      var init := roots[..|roots| - 1];
      var r := roots[|roots| - 1];
      assert w.root in roots <==> w.root in init || w.root == r;
      TargetsInValidTable(ws, next, init, w);
      var k := FirstOfRoot(ws, r);
      var i :| 0 <= i < |ws| && ws[i] == w;
      if k < |ws| && ws[k].id == w.id {
        assert k == i;
      }
      if w.root == r {
        assert k <= i;
      }
    }
  }

  /** In a valid table a root's widget is the one widget tagged with it. */
  lemma WidgetOfValid(ws: seq<WidgetRec>, next: Entity, root: Entity)
    requires TableValid(ws, next)
    ensures forall w :: w in ws && w.root == root ==> WidgetOf(ws, root) == Some(w)
    ensures (forall w :: w in ws ==> w.root != root) ==> WidgetOf(ws, root).None?
  {
  }

  /** Which widgets survive a setup, and which are added. */
  lemma SetupMembers(ws: seq<WidgetRec>, next: Entity, removed: seq<Entity>, changed: seq<Change>, w: WidgetRec)
    requires TableValid(ws, next)
    ensures w in SetupResult(ws, removed, changed, next) <==>
      (w in ws && w.root !in removed && w.root !in RootsOf(changed)) || w in Spawned(changed, next)
  {
    if w in ws {
      TargetsInValidTable(ws, next, removed, w);
      TargetsInValidTable(ws, next, RootsOf(changed), w);
    }
  }

  /** The table is still valid after a setup whose changed roots are distinct. */
  lemma SetupKeepsTableValid(ws: seq<WidgetRec>, next: Entity, removed: seq<Entity>, changed: seq<Change>)
    requires TableValid(ws, next) && DistinctRoots(changed)
    ensures TableValid(SetupResult(ws, removed, changed, next), next + |changed|)
  {
    var kept := Without(ws, Targets(ws, removed) + Targets(ws, RootsOf(changed)));
    var born := Spawned(changed, next);
    var r := kept + born;
    forall w | w in kept
      ensures w in ws && w.root !in RootsOf(changed) && w.id < next
    {
      SetupMembers(ws, next, removed, changed, w);
      assert w !in born;
    }
    WithoutValid(ws, next, Targets(ws, removed) + Targets(ws, RootsOf(changed)));
    forall i, j | 0 <= i < j < |r|
      ensures r[i].id != r[j].id && r[i].root != r[j].root
    {
      if j < |kept| {
      } else if i >= |kept| {
      } else {
        assert r[i] in kept;
        assert r[j] == born[j - |kept|];
        assert r[j].root == RootsOf(changed)[j - |kept|];
      }
    }
    forall i | 0 <= i < |r| ensures r[i].id < next + |changed| {
      if i < |kept| {
        assert r[i] in kept;
      }
    }
  }

  lemma {:induction false} WithoutValid(ws: seq<WidgetRec>, next: Entity, ids: set<Entity>)
    requires TableValid(ws, next)
    ensures TableValid(Without(ws, ids), next)
  {
    if ws != [] {
      var init := ws[..|ws| - 1];
      var w := ws[|ws| - 1];
      assert TableValid(init, next);
      WithoutValid(init, next, ids);
      var r := Without(init, ids);
      forall v | v in r ensures v.id != w.id && v.root != w.root {
        var i :| 0 <= i < |init| && init[i] == v;
        assert ws[i] == v;
      }
    }
  }

  /**
   * A changed root ends up with exactly one widget (the table stays
   * valid), freshly spawned and carrying the root and the widget's sort
   * key.
   */
  lemma SetupRebuildsChanged(ws: seq<WidgetRec>, next: Entity, removed: seq<Entity>, changed: seq<Change>, i: nat)
    requires TableValid(ws, next) && DistinctRoots(changed) && i < |changed|
    ensures WidgetOf(SetupResult(ws, removed, changed, next), changed[i].root) ==
      Some(WidgetRec(next + i, changed[i].root, changed[i].sortKey))
  {
    var r := SetupResult(ws, removed, changed, next);
    var born := Spawned(changed, next);
    SetupKeepsTableValid(ws, next, removed, changed);
    assert born[i] in born;
    SetupMembers(ws, next, removed, changed, born[i]);
    WidgetOfValid(r, next + |changed|, changed[i].root);
  }

  /**
   * A root that did not change loses its widget when it is among the
   * removed ones, and otherwise keeps the widget it had.
   */
  lemma SetupKeepsOthers(ws: seq<WidgetRec>, next: Entity, removed: seq<Entity>, changed: seq<Change>, root: Entity)
    requires TableValid(ws, next) && DistinctRoots(changed) && (forall c :: c in changed ==> c.root != root)
    ensures WidgetOf(SetupResult(ws, removed, changed, next), root) ==
      if root in removed then None else WidgetOf(ws, root)
  {
    assert root !in RootsOf(changed);
    var r := SetupResult(ws, removed, changed, next);
    SetupKeepsTableValid(ws, next, removed, changed);
    WidgetOfValid(r, next + |changed|, root);
    WidgetOfValid(ws, next, root);
    forall w | w in r && w.root == root ensures w in ws && root !in removed {
      SetupMembers(ws, next, removed, changed, w);
      assert w !in Spawned(changed, next);
    }
    if root !in removed {
      forall w | w in ws && w.root == root ensures w in r {
        SetupMembers(ws, next, removed, changed, w);
      }
    }
  }

  /** With nothing changed and nothing removed, setup leaves the table as it is: skipping it loses nothing. */
  lemma {:induction false} SetupWithoutChanges(ws: seq<WidgetRec>, next: Entity)
    ensures SetupResult(ws, [], [], next) == ws
  {
    WithoutNothing(ws);
    assert Targets(ws, []) + Targets(ws, RootsOf([])) == {};
    assert Spawned([], next) == [];
  }

  lemma {:induction false} WithoutNothing(ws: seq<WidgetRec>)
    ensures Without(ws, {}) == ws
  {
    if ws != [] {
      var init := ws[..|ws| - 1];
      WithoutNothing(init);
      assert ws == init + [ws[|ws| - 1]];
    }
  }

  /** `rc_setup_perf_ui_widget`: run setup when something changed or was removed. */
  predicate ShouldSetup(changed: seq<Change>, removed: seq<Entity>) {
    changed != [] || removed != []
  }

  /** The widget entities of one widget type, in query order. */
  class WidgetTable {
    var widgets: seq<WidgetRec>
    var nextEntity: Entity

    constructor(widgets: seq<WidgetRec>, nextEntity: Entity)
      ensures this.widgets == widgets && this.nextEntity == nextEntity
    {
      this.widgets := widgets;
      this.nextEntity := nextEntity;
    }

    /**
     * `setup_perf_ui_widget`: despawn the widget of every removed root,
     * then for every changed root despawn its old widget and spawn a new
     * one tagged with the root and the widget's sort key.
     */
    method Setup(removed: seq<Entity>, changed: seq<Change>)
      modifies this
      ensures widgets == SetupResult(old(widgets), removed, changed, old(nextEntity))
      ensures nextEntity == old(nextEntity) + |changed|
    {
      var snapshot := widgets;
      var doomed: set<Entity> := {};
      for i := 0 to |removed|
        invariant doomed == Targets(snapshot, removed[..i])
      {
        assert removed[..i + 1][..i] == removed[..i];
        var k := FirstOfRoot(snapshot, removed[i]);
        if k < |snapshot| {
          doomed := doomed + {snapshot[k].id};
        }
      }
      assert removed[..|removed|] == removed;
      var first := nextEntity;
      var spawned: seq<WidgetRec> := [];
      ghost var fromRemoved := doomed;
      for i := 0 to |changed|
        invariant doomed == fromRemoved + Targets(snapshot, RootsOf(changed)[..i])
        invariant spawned == Spawned(changed[..i], first)
        invariant nextEntity == first + i
      {
        assert RootsOf(changed)[..i + 1][..i] == RootsOf(changed)[..i];
        var k := FirstOfRoot(snapshot, changed[i].root);
        if k < |snapshot| {
          doomed := doomed + {snapshot[k].id};
        }
        spawned := spawned + [WidgetRec(nextEntity, changed[i].root, changed[i].sortKey)];
        nextEntity := nextEntity + 1;
      }
      assert RootsOf(changed)[..|changed|] == RootsOf(changed);
      assert changed[..|changed|] == changed;
      widgets := Without(snapshot, doomed) + spawned;
    }
  }

  /** A root entity carrying both `PerfUiRoot` and the entry (the widget component). */
  datatype Member<!C, !V> = Member(root: PerfUiRoot, entry: Entry<C, V>)

  /** The change the setup records for a simple widget: its sort key is the entry's. */
  function SimpleChange<C, V>(root: Entity, m: Member<C, V>): (c: Change)
    ensures c.root == root && c.sortKey == m.entry.sortKey
  {
    Change(root, m.entry.sortKey)
  }

  /** A value text node of the simple widget, owned by the widget it was spawned under. */
  datatype TextNode = TextNode(owner: Entity, text: string, color: Color, font: FontHandle)

  /** What a row's value text node is set to. */
  datatype TextView = TextView(text: string, color: Color, font: FontHandle)

  /**
   * The text, colour and font of a simple widget's value for this tick:
   * the formatted value in its own or the default colour, in the
   * highlight font when highlighted; or the error text in the error
   * colour and the value font when there is no value.
   */
  function RowView<C, V(!new)>(m: Member<C, V>, ctx: C): (t: TextView)
    ensures m.entry.updateValue(ctx).None? ==> t == TextView(m.root.textErr, m.root.errColor, m.root.fontValue)
    ensures m.entry.updateValue(ctx).Some? ==>
      var v := m.entry.updateValue(ctx).value;
      && t.text == m.entry.formatValue(v)
      && t.color == m.entry.valueColor(v).GetOr(m.root.defaultValueColor)
      && t.font == (if m.entry.valueHighlight(v) then m.root.fontHighlight else m.root.fontValue)
  {
    match Observe(m.entry, ctx)
    case None => TextView(m.root.textErr, m.root.errColor, m.root.fontValue)
    case Some(s) => TextView(s.text, s.color.GetOr(m.root.defaultValueColor), if s.highlight then m.root.fontHighlight else m.root.fontValue)
  }

  /** A row is highlighted when a value was fetched and the entry highlights it. */
  function RowHighlighted<C, V(!new)>(e: Entry<C, V>, ctx: C): (h: bool)
    ensures h <==> e.updateValue(ctx).Some? && e.valueHighlight(e.updateValue(ctx).value)
  {
    match Observe(e, ctx)
    case None => false
    case Some(s) => s.highlight
  }

  /** The row background: the highlight colour exactly when the row is highlighted. */
  function RowBackground<C, V(!new)>(m: Member<C, V>, ctx: C): Color {
    if RowHighlighted(m.entry, ctx) then m.root.innerBackgroundColorHighlight else m.root.innerBackgroundColor
  }

  function Restyle(n: TextNode, t: TextView): TextNode {
    n.(text := t.text, color := t.color, font := t.font)
  }

  /** Every node shows `t`. */
  function RestyleAll(nodes: seq<TextNode>, t: TextView): (r: seq<TextNode>)
    ensures |r| == |nodes| && forall i :: 0 <= i < |r| ==> r[i] == Restyle(nodes[i], t)
  {
    seq(|nodes|, i requires 0 <= i < |nodes| => Restyle(nodes[i], t))
  }

  /** The nodes of widget `owner` show `t`; the others are left alone. */
  function RestyleOwned(nodes: seq<TextNode>, owner: Entity, t: TextView): (r: seq<TextNode>)
    ensures |r| == |nodes|
    ensures forall i :: 0 <= i < |r| ==> r[i] == if nodes[i].owner == owner then Restyle(nodes[i], t) else nodes[i]
  {
    seq(|nodes|, i requires 0 <= i < |nodes| => if nodes[i].owner == owner then Restyle(nodes[i], t) else nodes[i])
  }

  /** The value text nodes of the simple widgets of one entry type, and the row backgrounds. */
  datatype UiState = UiState(texts: seq<TextNode>, backgrounds: map<Entity, Color>)

  /**
   * The simple widget's `update` as written: the loop visits every text
   * node tagged for the entry type, whichever widget it belongs to, and
   * sets the row background once per node visited.
   */
  function UpdateAsWritten<C, V(!new)>(s: UiState, widget: Entity, m: Member<C, V>, ctx: C): UiState {
    UiState(
      RestyleAll(s.texts, RowView(m, ctx)),
      if s.texts != [] && widget in s.backgrounds then s.backgrounds[widget := RowBackground(m, ctx)] else s.backgrounds)
  }

  /** The simple widget's `update` restricted to the widget's own text node. */
  function UpdateOwn<C, V(!new)>(s: UiState, widget: Entity, m: Member<C, V>, ctx: C): UiState {
    UiState(
      RestyleOwned(s.texts, widget, RowView(m, ctx)),
      if widget in s.backgrounds then s.backgrounds[widget := RowBackground(m, ctx)] else s.backgrounds)
  }

  /**
   * `update_perf_ui_widget` over the widget table: each widget whose root
   * still carries both `PerfUiRoot` and the entry is updated, the others
   * are skipped. `asWritten` selects the update as the source writes it.
   */
  function Tick<C, V(!new)>(s: UiState, ws: seq<WidgetRec>, members: map<Entity, Member<C, V>>, ctx: C, asWritten: bool): (r: UiState)
    ensures |r.texts| == |s.texts|
  {
    if ws == [] then s
    else
      var s' := Tick(s, ws[..|ws| - 1], members, ctx, asWritten);
      var w := ws[|ws| - 1];
      if w.root !in members then s'
      else if asWritten then UpdateAsWritten(s', w.id, members[w.root], ctx)
      else UpdateOwn(s', w.id, members[w.root], ctx)
  }

  /** The index of the widget whose entity is `id`, or `|ws|`. */
  function IndexOfId(ws: seq<WidgetRec>, id: Entity): (k: nat)
    ensures k <= |ws|
    ensures forall j :: 0 <= j < k ==> ws[j].id != id
    ensures k < |ws| ==> ws[k].id == id
  {
    if ws == [] then 0
    else if ws[0].id == id then 0
    else 1 + IndexOfId(ws[1..], id)
  }

  /**
   * With the own-node update, after a tick every text node shows the row
   * of the widget it belongs to, provided that widget's root is still
   * complete; other nodes are untouched, and each updated widget's
   * background reflects its own row's highlight.
   */
  lemma {:induction false} TickShowsOwnRow<C, V(!new)>(s: UiState, ws: seq<WidgetRec>, next: Entity, members: map<Entity, Member<C, V>>, ctx: C, i: nat)
    requires TableValid(ws, next) && i < |s.texts|
    ensures var r := Tick(s, ws, members, ctx, false);
      var k := IndexOfId(ws, s.texts[i].owner);
      && |r.texts| == |s.texts|
      && r.texts[i] == if k < |ws| && ws[k].root in members then Restyle(s.texts[i], RowView(members[ws[k].root], ctx)) else s.texts[i]
  {
    if ws != [] {
      var init := ws[..|ws| - 1];
      var w := ws[|ws| - 1];
      assert TableValid(init, next);
      TickShowsOwnRow(s, init, next, members, ctx, i);
      var k := IndexOfId(ws, s.texts[i].owner);
      var k' := IndexOfId(init, s.texts[i].owner);
      if k < |init| {
        assert k' == k;
      } else {
        assert k' == |init|;
      }
    }
  }

  /** The background a tick gives each updated widget is its own row's. */
  lemma {:induction false} TickSetsOwnBackground<C, V(!new)>(s: UiState, ws: seq<WidgetRec>, next: Entity, members: map<Entity, Member<C, V>>, ctx: C, k: nat)
    requires TableValid(ws, next) && k < |ws|
    requires ws[k].root in members && ws[k].id in s.backgrounds
    ensures var r := Tick(s, ws, members, ctx, false);
      ws[k].id in r.backgrounds && r.backgrounds[ws[k].id] == RowBackground(members[ws[k].root], ctx)
  {
    var init := ws[..|ws| - 1];
    assert TableValid(init, next);
    TickKeepsBackgroundKeys(s, init, members, ctx, false);
    if k < |init| {
      TickSetsOwnBackground(s, init, next, members, ctx, k);
      assert ws[|ws| - 1].id != ws[k].id;
    }
  }

  lemma {:induction false} TickKeepsBackgroundKeys<C, V(!new)>(s: UiState, ws: seq<WidgetRec>, members: map<Entity, Member<C, V>>, ctx: C, asWritten: bool)
    ensures Tick(s, ws, members, ctx, asWritten).backgrounds.Keys == s.backgrounds.Keys
  {
    if ws != [] {
      TickKeepsBackgroundKeys(s, ws[..|ws| - 1], members, ctx, asWritten);
    }
  }

  /** The last widget in the table whose root is complete, if any. */
  function LastLive<C, V>(ws: seq<WidgetRec>, members: map<Entity, Member<C, V>>): (r: Option<WidgetRec>)
    ensures r.Some? ==> r.value in ws && r.value.root in members
    ensures r.None? ==> forall w :: w in ws ==> w.root !in members
  {
    if ws == [] then None
    else if ws[|ws| - 1].root in members then Some(ws[|ws| - 1])
    else LastLive(ws[..|ws| - 1], members)
  }

  /**
   * As written, after a tick every text node of the entry type shows the
   * row of the last widget updated, whichever widget the node belongs to.
   */
  lemma {:induction false} TickAsWrittenShowsLast<C, V(!new)>(s: UiState, ws: seq<WidgetRec>, members: map<Entity, Member<C, V>>, ctx: C)
    ensures Tick(s, ws, members, ctx, true).texts ==
      match LastLive(ws, members)
      case None => s.texts
      case Some(w) => RestyleAll(s.texts, RowView(members[w.root], ctx))
  {
    if ws != [] {
      var init := ws[..|ws| - 1];
      TickAsWrittenShowsLast(s, init, members, ctx);
      var w := ws[|ws| - 1];
      if w.root in members {
        var t := Tick(s, init, members, ctx, true).texts;
        var v := RowView(members[w.root], ctx);
        TickKeepsBackgroundKeys(s, init, members, ctx, true);
        assert RestyleAll(t, v) == RestyleAll(s.texts, v);
      }
    }
  }

  /** A counter with a constant reading, shown as `text`. */
  function ConstantEntry(text: string, key: I32): Entry<(), int> {
    Entry("Counter", key, _ => Some(1), _ => text, _ => None, _ => false)
  }

  /**
   * Two overlays, each with its own configuration of the same entry type:
   * as written, the first overlay's row ends up with the second overlay's
   * text; with the own-node update each row keeps its own.
   */
  lemma SharedTextNodes()
    ensures var ws := [WidgetRec(10, 1, 1), WidgetRec(11, 2, 2)];
      var members := map[1 := Member(DefaultRoot(), ConstantEntry("A", 1)), 2 := Member(DefaultRoot(), ConstantEntry("B", 2))];
      var s := UiState([TextNode(10, "N/A", NONE, DEFAULT_FONT), TextNode(11, "N/A", NONE, DEFAULT_FONT)], map[10 := NONE, 11 := NONE]);
      && Tick(s, ws, members, (), true).texts[0].text == "B"
      && Tick(s, ws, members, (), false).texts[0].text == "A"
      && Tick(s, ws, members, (), false).texts[1].text == "B"
  {
    var ws := [WidgetRec(10, 1, 1), WidgetRec(11, 2, 2)];
    var members := map[1 := Member(DefaultRoot(), ConstantEntry("A", 1)), 2 := Member(DefaultRoot(), ConstantEntry("B", 2))];
    var s := UiState([TextNode(10, "N/A", NONE, DEFAULT_FONT), TextNode(11, "N/A", NONE, DEFAULT_FONT)], map[10 := NONE, 11 := NONE]);
    assert ws[..1] == [WidgetRec(10, 1, 1)] && ws[..1][..0] == [];
    TickAsWrittenShowsLast(s, ws, members, ());
    assert TableValid(ws, 12);
    TickShowsOwnRow(s, ws, 12, members, (), 0);
    TickShowsOwnRow(s, ws, 12, members, (), 1);
  }

  /** The simple widgets of one entry type at run time: their text nodes and row backgrounds. */
  class SimpleWidgets<C, V(!new)> {
    var texts: seq<TextNode>
    var backgrounds: map<Entity, Color>

    constructor(texts: seq<TextNode>, backgrounds: map<Entity, Color>)
      ensures this.texts == texts && this.backgrounds == backgrounds
    {
      this.texts := texts;
      this.backgrounds := backgrounds;
    }

    function State(): UiState
      reads this
    {
      UiState(texts, backgrounds)
    }

    /** The simple widget's `update` as written: every tagged text node is rewritten. */
    method UpdateWidgetAsWritten(widget: Entity, m: Member<C, V>, ctx: C)
      modifies this
      ensures State() == UpdateAsWritten(old(State()), widget, m, ctx)
    {
      ghost var s0 := State();
      var view := RowView(m, ctx);
      var background := RowBackground(m, ctx);
      var i := 0;
      while i < |texts|
        invariant 0 <= i <= |texts| == |s0.texts|
        invariant forall j :: 0 <= j < i ==> texts[j] == Restyle(s0.texts[j], view)
        invariant forall j :: i <= j < |texts| ==> texts[j] == s0.texts[j]
        invariant backgrounds == if i > 0 && widget in s0.backgrounds then s0.backgrounds[widget := background] else s0.backgrounds
      {
        texts := texts[i := Restyle(texts[i], view)];
        if widget in backgrounds {
          backgrounds := backgrounds[widget := background];
        }
        i := i + 1;
      }
      assert texts == RestyleAll(s0.texts, view);
    }

    /** The simple widget's `update` restricted to the widget's own text node. */
    method UpdateWidget(widget: Entity, m: Member<C, V>, ctx: C)
      modifies this
      ensures State() == UpdateOwn(old(State()), widget, m, ctx)
    {
      ghost var s0 := State();
      var view := RowView(m, ctx);
      var i := 0;
      while i < |texts|
        invariant 0 <= i <= |texts| == |s0.texts|
        invariant forall j :: 0 <= j < i ==> texts[j] == if s0.texts[j].owner == widget then Restyle(s0.texts[j], view) else s0.texts[j]
        invariant forall j :: i <= j < |texts| ==> texts[j] == s0.texts[j]
        invariant backgrounds == s0.backgrounds
      {
        if texts[i].owner == widget {
          texts := texts[i := Restyle(texts[i], view)];
        }
        i := i + 1;
      }
      assert texts == RestyleOwned(s0.texts, widget, view);
      if widget in backgrounds {
        backgrounds := backgrounds[widget := RowBackground(m, ctx)];
      }
    }

    /** `update_perf_ui_widget` with the own-node update: widgets with an incomplete root are skipped. */
    method UpdatePerfUiWidgets(ws: seq<WidgetRec>, members: map<Entity, Member<C, V>>, ctx: C)
      modifies this
      ensures State() == Tick(old(State()), ws, members, ctx, false)
    {
      ghost var s0 := State();
      for i := 0 to |ws|
        invariant State() == Tick(s0, ws[..i], members, ctx, false)
      {
        assert ws[..i + 1][..i] == ws[..i];
        if ws[i].root in members {
          UpdateWidget(ws[i].id, members[ws[i].root], ctx);
        }
      }
      assert ws[..|ws|] == ws;
    }

    /** `update_perf_ui_widget` with the update as written. */
    method UpdatePerfUiWidgetsAsWritten(ws: seq<WidgetRec>, members: map<Entity, Member<C, V>>, ctx: C)
      modifies this
      ensures State() == Tick(old(State()), ws, members, ctx, true)
    {
      ghost var s0 := State();
      for i := 0 to |ws|
        invariant State() == Tick(s0, ws[..i], members, ctx, true)
      {
        assert ws[..i + 1][..i] == ws[..i];
        if ws[i].root in members {
          UpdateWidgetAsWritten(ws[i].id, members[ws[i].root], ctx);
        }
      }
      assert ws[..|ws|] == ws;
    }
  }
}
