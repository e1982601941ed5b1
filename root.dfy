/**
 * The root of a Perf UI: its configuration component, the corner it is
 * anchored to, and the system that gives a (changed) root entity its
 * background colour and layout node.
 */
module Root {
  import opened Wrappers
  import opened Numeric
  import opened Colors
  import opened World

  /** The corner of the screen the overlay sits in. */
  datatype Position = TopLeft | TopRight | BottomLeft | BottomRight {
    predicate AtTop() {
      this == TopLeft || this == TopRight
    }

    predicate AtLeft() {
      this == TopLeft || this == BottomLeft
    }
  }

  /** A UI length: automatic, or a number of logical pixels. */
  datatype Val = Auto | Px(px: real)

  function Top(p: Position, margin: real): (v: Val)
    ensures v.Px? <==> p.AtTop()
    ensures v.Px? ==> v.px == margin
  {
    match p
    case TopLeft | TopRight => Px(margin)
    case BottomLeft | BottomRight => Auto
  }

  function Bottom(p: Position, margin: real): (v: Val)
    ensures v.Px? <==> !p.AtTop()
    ensures v.Px? ==> v.px == margin
  {
    match p
    case BottomLeft | BottomRight => Px(margin)
    case TopLeft | TopRight => Auto
  }

  function Left(p: Position, margin: real): (v: Val)
    ensures v.Px? <==> p.AtLeft()
    ensures v.Px? ==> v.px == margin
  {
    match p
    case TopLeft | BottomLeft => Px(margin)
    case TopRight | BottomRight => Auto
  }

  function Right(p: Position, margin: real): (v: Val)
    ensures v.Px? <==> !p.AtLeft()
    ensures v.Px? ==> v.px == margin
  {
    match p
    case TopRight | BottomRight => Px(margin)
    case TopLeft | BottomLeft => Auto
  }

  /** The corner whose top (or bottom) and left (or right) edges are the anchored ones. */
  function CornerOf(top: bool, left: bool): Position {
    if top then (if left then TopLeft else TopRight)
    else (if left then BottomLeft else BottomRight)
  }

  /**
   * Exactly one vertical and one horizontal edge is held at the margin,
   * the opposite edges are automatic, and the held edges name the corner.
   */
  lemma Anchoring(p: Position, margin: real)
    ensures {Top(p, margin), Bottom(p, margin)} == {Px(margin), Auto}
    ensures {Left(p, margin), Right(p, margin)} == {Px(margin), Auto}
    ensures CornerOf(Top(p, margin).Px?, Left(p, margin).Px?) == p
  {
  }

  /** The `PerfUiRoot` component: the configuration of one overlay. */
  datatype PerfUiRoot = PerfUiRoot(
    backgroundColor: Color,
    innerBackgroundColor: Color,
    innerBackgroundColorHighlight: Color,
    displayLabels: bool,
    layoutHorizontal: bool,
    textErr: string,
    errColor: Color,
    defaultValueColor: Color,
    labelColor: Color,
    fontLabel: FontHandle,
    fontValue: FontHandle,
    fontHighlight: FontHandle,
    fontsizeLabel: real,
    fontsizeValue: real,
    zIndex: I32,
    position: Position,
    margin: real,
    padding: real,
    innerMargin: real,
    innerPadding: real,
    valuesColWidth: real)

  /** `PerfUiRoot::default()`. */
  function DefaultRoot(): (r: PerfUiRoot)
    ensures r.textErr == "N/A" && r.displayLabels && !r.layoutHorizontal
    ensures r.valuesColWidth == 128.0 && r.position == TopRight && r.margin == 16.0
    ensures r.zIndex == I32_MAX
    ensures r.fontLabel == r.fontValue == r.fontHighlight == DEFAULT_FONT
  {
    PerfUiRoot(
      backgroundColor := Rgba(0.0, 0.0, 0.0, 0.5),
      innerBackgroundColor := NONE,
      innerBackgroundColorHighlight := Rgba(1.0, 0.0, 0.0, 1.0 / 16.0),
      displayLabels := true,
      layoutHorizontal := false,
      textErr := "N/A",
      errColor := Srgb(0.5, 0.5, 0.5),
      defaultValueColor := Srgb(0.75, 0.75, 0.75),
      labelColor := WHITE,
      fontLabel := DEFAULT_FONT,
      fontValue := DEFAULT_FONT,
      fontHighlight := DEFAULT_FONT,
      fontsizeLabel := 12.0,
      fontsizeValue := 12.0,
      zIndex := I32_MAX,
      position := TopRight,
      margin := 16.0,
      padding := 2.0,
      innerMargin := 0.0,
      innerPadding := 0.0,
      valuesColWidth := 128.0)
  }

  /** A default overlay hangs 16 pixels below the top and left of the right edge. */
  lemma DefaultAnchoring()
    ensures var r := DefaultRoot();
      && Top(r.position, r.margin) == Px(16.0) && Right(r.position, r.margin) == Px(16.0)
      && Bottom(r.position, r.margin) == Auto && Left(r.position, r.margin) == Auto
  {
  }

  datatype FlexDirection = Row | Column

  /** The layout node of a root: absolutely positioned, children stretched. */
  datatype RootNode = RootNode(
    top: Val, bottom: Val, left: Val, right: Val,
    direction: FlexDirection,
    padding: real)

  /** The node `setup_perf_ui` computes for a root. */
  function RootStyle(root: PerfUiRoot): (n: RootNode)
    ensures n.direction == Row <==> root.layoutHorizontal
    ensures n.padding == root.padding
    ensures n.top == Top(root.position, root.margin) && n.bottom == Bottom(root.position, root.margin)
    ensures n.left == Left(root.position, root.margin) && n.right == Right(root.position, root.margin)
  {
    var p := root.position;
    RootNode(
      Top(p, root.margin), Bottom(p, root.margin), Left(p, root.margin), Right(p, root.margin),
      if root.layoutHorizontal then Row else Column,
      root.padding)
  }

  /** The components the setup system reads and writes, per entity. */
  datatype RootUi = RootUi(
    names: map<Entity, string>,
    backgrounds: map<Entity, Color>,
    nodes: map<Entity, RootNode>)

  /**
   * Setup of one changed root: an existing background and node are
   * overwritten in place; otherwise the name "PerfUi", the background
   * and the node are inserted.
   */
  function SetupOne(s: RootUi, e: Entity, root: PerfUiRoot): (r: RootUi)
    ensures At(r, e) == Configured(At(s, e), root)
    ensures forall x :: x != e ==> At(r, x) == At(s, x)
  {
    if e in s.backgrounds && e in s.nodes then
      s.(backgrounds := s.backgrounds[e := root.backgroundColor], nodes := s.nodes[e := RootStyle(root)])
    else
      RootUi(s.names[e := "PerfUi"], s.backgrounds[e := root.backgroundColor], s.nodes[e := RootStyle(root)])
  }

  /** Setup of the changed roots, in the order the query yields them. */
  function SetupAll(s: RootUi, roots: map<Entity, PerfUiRoot>, changed: seq<Entity>): RootUi
    requires forall e :: e in changed ==> e in roots
  {
    if changed == [] then s
    else
      var e := changed[|changed| - 1];
      SetupOne(SetupAll(s, roots, changed[..|changed| - 1]), e, roots[e])
  }

  /** The components one entity carries, as far as the setup system is concerned. */
  datatype Components = Components(name: Option<string>, background: Option<Color>, node: Option<RootNode>)

  function At(s: RootUi, e: Entity): Components {
    Components(
      if e in s.names then Some(s.names[e]) else None,
      if e in s.backgrounds then Some(s.backgrounds[e]) else None,
      if e in s.nodes then Some(s.nodes[e]) else None)
  }

  /**
   * What setup makes of one root's components: the background and node
   * always carry the configuration; the name becomes "PerfUi" unless the
   * entity already had both a background and a node.
   */
  function Configured(c: Components, root: PerfUiRoot): (r: Components)
    ensures r.background == Some(root.backgroundColor) && r.node == Some(RootStyle(root))
    ensures r.name == if c.background.Some? && c.node.Some? then c.name else Some("PerfUi")
  {
    if c.background.Some? && c.node.Some? then
      c.(background := Some(root.backgroundColor), node := Some(RootStyle(root)))
    else
      Components(Some("PerfUi"), Some(root.backgroundColor), Some(RootStyle(root)))
  }

  /**
   * After setup every changed root carries its configured components,
   * however often it was listed, and no other entity is touched; so with
   * no changed root (when the run condition skips the system) nothing
   * changes.
   */
  lemma {:induction false} SetupAllEffect(s: RootUi, roots: map<Entity, PerfUiRoot>, changed: seq<Entity>, x: Entity)
    requires forall e :: e in changed ==> e in roots
    ensures At(SetupAll(s, roots, changed), x) == if x in changed then Configured(At(s, x), roots[x]) else At(s, x)
  {
    if changed != [] {
      var init := changed[..|changed| - 1];
      var e := changed[|changed| - 1];
      assert x in changed <==> x in init || x == e;
      SetupAllEffect(s, roots, init, x);
    }
  }

  /** The entities of a world that carry the components the root setup touches. */
  class RootWorld {
    var names: map<Entity, string>
    var backgrounds: map<Entity, Color>
    var nodes: map<Entity, RootNode>

    constructor(names: map<Entity, string>, backgrounds: map<Entity, Color>, nodes: map<Entity, RootNode>)
      ensures this.names == names && this.backgrounds == backgrounds && this.nodes == nodes
    {
      this.names := names;
      this.backgrounds := backgrounds;
      this.nodes := nodes;
    }

    function State(): RootUi
      reads this
    {
      RootUi(names, backgrounds, nodes)
    }

    /** `setup_perf_ui`: runs over the roots whose `PerfUiRoot` changed. */
    method SetupPerfUi(roots: map<Entity, PerfUiRoot>, changed: seq<Entity>)
      requires forall e :: e in changed ==> e in roots
      modifies this
      ensures State() == SetupAll(old(State()), roots, changed)
    {
      ghost var s0 := State();
      var i := 0;
      while i < |changed|
        invariant 0 <= i <= |changed|
        invariant State() == SetupAll(s0, roots, changed[..i])
      {
        var e := changed[i];
        var root := roots[e];
        assert changed[..i + 1][..i] == changed[..i];
        if e in backgrounds && e in nodes {
          backgrounds := backgrounds[e := root.backgroundColor];
          nodes := nodes[e := RootStyle(root)];
        } else {
          names := names[e := "PerfUi"];
          backgrounds := backgrounds[e := root.backgroundColor];
          nodes := nodes[e := RootStyle(root)];
        }
        i := i + 1;
      }
      assert changed[..i] == changed;
    }
  }
}
