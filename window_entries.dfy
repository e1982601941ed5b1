/**
 * The entries that report on an application window: its mode, present
 * mode, scale factor, resolution and the cursor position over it. Each
 * reads either the window the entry names or, by default, the single
 * primary window.
 */
module WindowEntries {
  import opened Wrappers
  import opened Numeric
  import opened Text
  import opened Utils
  import opened Entry
  import opened World

  datatype WindowMode = Windowed | BorderlessFullscreen | Fullscreen

  datatype PresentMode = AutoVsync | AutoNoVsync | Fifo | FifoRelaxed | Immediate | Mailbox

  datatype Vec2 = Vec2(x: real, y: real)

  /** The parts of a window the entries read; `width`/`height` are the logical size. */
  datatype Window = Window(
    mode: WindowMode,
    presentMode: PresentMode,
    scaleFactor: real,
    physicalWidth: U32,
    physicalHeight: U32,
    width: real,
    height: real,
    cursor: Option<Vec2>,
    physicalCursor: Option<Vec2>)

  /** Every window entity with its window, and the entities marked as primary. */
  datatype Windows = Windows(all: map<Entity, Window>, primary: set<Entity>)

  /** The windows the primary-window query yields. */
  function Primaries(ws: Windows): set<Entity> {
    ws.all.Keys * ws.primary
  }

  lemma SingletonIs(s: set<Entity>, a: Entity)
    requires |s| == 1 && a in s
    ensures s == {a}
  {
    assert |s - {a}| == 0;
    assert s - {a} == {};
  }

  lemma SingletonUnique(s: set<Entity>)
    requires |s| == 1
    ensures forall a, b :: a in s && b in s ==> a == b
  {
    forall a, b | a in s && b in s
      ensures a == b
    {
      SingletonIs(s, a);
    }
  }

  /**
   * The window an entry reads: the named entity when it is a window,
   * else the primary window when there is exactly one (the query's
   * `single` fails on none or several); otherwise no value.
   */
  function SelectWindow(sel: Option<Entity>, ws: Windows): (r: Option<Window>)
    ensures sel.Some? ==> (r.Some? <==> sel.value in ws.all)
    ensures sel.Some? && r.Some? ==> r.value == ws.all[sel.value]
    ensures sel.None? ==> (r.Some? <==> |Primaries(ws)| == 1)
    ensures sel.None? && r.Some? ==> exists p :: Primaries(ws) == {p} && r.value == ws.all[p]
  {
    match sel
    case Some(e) => if e in ws.all then Some(ws.all[e]) else None
    case None =>
      var ps := Primaries(ws);
      if |ps| == 1 then
        SingletonUnique(ps);
        var p :| p in ps;
        assert ps == {p};
        Some(ws.all[p])
      else None
  }

  /** With exactly one primary window, the default selection is that window. */
  lemma SinglePrimarySelected(ws: Windows, p: Entity)
    requires p in ws.all && p in ws.primary
    requires forall q :: q in ws.all && q in ws.primary ==> q == p
    ensures SelectWindow(None, ws) == Some(ws.all[p])
  {
    assert Primaries(ws) == {p};
  }

  /** Two primary windows make the default selection fail. */
  lemma TwoPrimariesNone(ws: Windows, a: Entity, b: Entity)
    requires a != b
    requires a in ws.all && a in ws.primary && b in ws.all && b in ws.primary
    ensures SelectWindow(None, ws).None?
  {
    var ps := Primaries(ws);
    assert b in ps - {a};
    assert |ps - {a}| >= 1;
  }

  /** A named window is read whatever the primary marking says. */
  lemma NamedWindowIgnoresPrimary(e: Entity, ws: Windows, primary: set<Entity>)
    ensures SelectWindow(Some(e), ws) == SelectWindow(Some(e), ws.(primary := primary))
  {
  }

  // Window mode and present mode

  datatype WindowModeEntry = WindowModeEntry(labelText: string, window: Option<Entity>, sortKey: I32)

  function WindowModeLabel(e: WindowModeEntry): (l: string)
    ensures e.labelText != [] ==> l == e.labelText
    ensures e.labelText == [] ==> l == "Window Mode"
  {
    if e.labelText == [] then "Window Mode" else e.labelText
  }

  /** The selected window's mode; none when no window is selected. */
  function WindowModeValue(e: WindowModeEntry, ws: Windows): (r: Option<WindowMode>)
    ensures r.Some? <==> SelectWindow(e.window, ws).Some?
    ensures r.Some? ==> r.value == SelectWindow(e.window, ws).value.mode
  {
    match SelectWindow(e.window, ws)
    case None => None
    case Some(w) => Some(w.mode)
  }

  /** The entry keeps the default hooks: the mode is shown by its `Debug` text. */
  function WindowModeAsEntry(e: WindowModeEntry, debug: WindowMode -> string): (r: Entry<Windows, WindowMode>)
    ensures r.labelText == WindowModeLabel(e) && r.sortKey == e.sortKey
    ensures forall ws :: r.updateValue(ws) == WindowModeValue(e, ws)
    ensures forall m :: r.formatValue(m) == debug(m) && r.valueColor(m).None? && !r.valueHighlight(m)
  {
    WithDefaults(WindowModeLabel(e), e.sortKey, ws => WindowModeValue(e, ws), debug)
  }

  datatype PresentModeEntry = PresentModeEntry(labelText: string, window: Option<Entity>, sortKey: I32)

  function PresentModeLabel(e: PresentModeEntry): (l: string)
    ensures e.labelText != [] ==> l == e.labelText
    ensures e.labelText == [] ==> l == "Present Mode"
  {
    if e.labelText == [] then "Present Mode" else e.labelText
  }

  /** The selected window's present mode; none when no window is selected. */
  function PresentModeValue(e: PresentModeEntry, ws: Windows): (r: Option<PresentMode>)
    ensures r.Some? <==> SelectWindow(e.window, ws).Some?
    ensures r.Some? ==> r.value == SelectWindow(e.window, ws).value.presentMode
  {
    match SelectWindow(e.window, ws)
    case None => None
    case Some(w) => Some(w.presentMode)
  }

  function PresentModeAsEntry(e: PresentModeEntry, debug: PresentMode -> string): (r: Entry<Windows, PresentMode>)
    ensures r.labelText == PresentModeLabel(e) && r.sortKey == e.sortKey
    ensures forall ws :: r.updateValue(ws) == PresentModeValue(e, ws)
    ensures forall m :: r.formatValue(m) == debug(m) && r.valueColor(m).None? && !r.valueHighlight(m)
  {
    WithDefaults(PresentModeLabel(e), e.sortKey, ws => PresentModeValue(e, ws), debug)
  }

  // Scale factor

  datatype ScaleFactorEntry = ScaleFactorEntry(
    labelText: string, window: Option<Entity>, digits: U8, precision: U8, sortKey: I32)

  function DefaultScaleFactor(sortKey: I32): ScaleFactorEntry {
    ScaleFactorEntry("", None, 2, 2, sortKey)
  }

  function ScaleFactorLabel(e: ScaleFactorEntry): (l: string)
    ensures e.labelText != [] ==> l == e.labelText
    ensures e.labelText == [] ==> l == "Scale Factor"
  {
    if e.labelText == [] then "Scale Factor" else e.labelText
  }

  /** The selected window's scale factor; none when no window is selected. */
  function ScaleFactorValue(e: ScaleFactorEntry, ws: Windows): (r: Option<real>)
    ensures r.Some? <==> SelectWindow(e.window, ws).Some?
    ensures r.Some? ==> r.value == SelectWindow(e.window, ws).value.scaleFactor
  {
    match SelectWindow(e.window, ws)
    case None => None
    case Some(w) => Some(w.scaleFactor)
  }

  function ScaleFactorText(e: ScaleFactorEntry, v: real): string {
    FormatPrettyFloatAsWritten(e.digits, e.precision, v)
  }

  /**
   * A non-negative scale factor below the corrected limit takes exactly
   * the field width of its digits and precision (when that width does
   * not wrap); between that limit and 10^digits it takes more.
   */
  lemma ScaleFactorTextWidth(e: ScaleFactorEntry, v: real)
    requires e.precision == 0 || FloatDigits(e.digits) + e.precision + 1 < 0x100
    requires v >= 0.0
    ensures v < FloatLimit(e.digits, e.precision) ==> |ScaleFactorText(e, v)| == FloatWidth(e.digits, e.precision)
    ensures FloatLimit(e.digits, e.precision) <= v < Pow10R(FloatDigits(e.digits)) ==>
      |ScaleFactorText(e, v)| > FloatWidth(e.digits, e.precision)
  {
    if v < FloatLimit(e.digits, e.precision) {
      FormatPrettyFloatAgrees(e.digits, e.precision, v);
      FormatPrettyFloatWidth(e.digits, e.precision, v);
    } else if v < Pow10R(FloatDigits(e.digits)) {
      FormatPrettyFloatOverflowsField(e.digits, e.precision, v);
    }
  }

  /** With the default two digits and two decimals, 99.996 prints as "100.00", one character past its five-character field. */
  lemma ScaleFactorPastField()
    ensures FloatWidth(2, 2) == 5
    ensures |ScaleFactorText(DefaultScaleFactor(0), 99.996)| == 6
  {
    var v := 99.996;
    assert Pow10R(2) == 100.0;
    assert FloatClampAsWritten(2, 2, v) == v;
    assert Abs(v) * Pow10R(2) == 9999.6;
    assert ScaledRound(v, 2) == 10000;
    assert DropDigits(10000, 2) == 100;
    assert Pow10(3) == 1000 && Pow10(2) == 100;
    DigitCount(100, 3);
    assert |FixedText(v, 2)| == 6;
  }

  // Resolution and cursor position

  datatype PairKind = Resolution | CursorPosition

  /** The resolution and cursor-position entries share their fields and their formatting. */
  datatype PairEntry = PairEntry(
    kind: PairKind,
    labelText: string,
    separator: string,
    displayUnits: bool,
    displayAxis: bool,
    physicalPixels: bool,
    window: Option<Entity>,
    precision: U8,
    width: U8,
    sortKey: I32)

  /** Resolution: "x" between the numbers, no axis names; cursor: ", " with axis names. */
  function DefaultPair(kind: PairKind, sortKey: I32): (e: PairEntry)
    ensures e.kind == kind && e.labelText == [] && !e.displayUnits && !e.physicalPixels
    ensures e.window.None? && e.precision == 0 && e.width == 8 && e.sortKey == sortKey
    ensures e.displayAxis <==> kind == CursorPosition
    ensures e.separator == if kind == Resolution then "x" else ", "
  {
    match kind
    case Resolution => PairEntry(kind, "", "x", false, false, false, None, 0, 8, sortKey)
    case CursorPosition => PairEntry(kind, "", ", ", false, true, false, None, 0, 8, sortKey)
  }

  function PairLabel(e: PairEntry): (l: string)
    ensures e.labelText != [] ==> l == e.labelText
    ensures e.labelText == [] ==> l == if e.kind == Resolution then "Resolution" else "Cursor Position"
  {
    if e.labelText != [] then e.labelText
    else match e.kind
      case Resolution => "Resolution"
      case CursorPosition => "Cursor Position"
  }

  /** The physical size as floats, or the logical size. */
  function WindowSize(w: Window, physical: bool): Vec2 {
    if physical then Vec2(w.physicalWidth as real, w.physicalHeight as real) else Vec2(w.width, w.height)
  }

  /** The cursor in physical or logical coordinates; none when the cursor is outside the window. */
  function WindowCursor(w: Window, physical: bool): Option<Vec2> {
    if physical then w.physicalCursor else w.cursor
  }

  /**
   * Resolution: the selected window's size. Cursor: its cursor
   * position, which is absent when the cursor is not over it.
   */
  function PairValue(e: PairEntry, ws: Windows): (r: Option<Vec2>)
    ensures SelectWindow(e.window, ws).None? ==> r.None?
    ensures e.kind == Resolution ==> (r.Some? <==> SelectWindow(e.window, ws).Some?)
    ensures e.kind == Resolution && r.Some? ==>
      r.value == WindowSize(SelectWindow(e.window, ws).value, e.physicalPixels)
    ensures e.kind == CursorPosition && SelectWindow(e.window, ws).Some? ==>
      r == WindowCursor(SelectWindow(e.window, ws).value, e.physicalPixels)
  {
    match SelectWindow(e.window, ws)
    case None => None
    case Some(w) =>
      (match e.kind
       case Resolution => Some(WindowSize(w, e.physicalPixels))
       case CursorPosition => WindowCursor(w, e.physicalPixels))
  }

  /** The four templates chosen by (axis names shown, units shown), over the two number texts. */
  function Template(axis: bool, units: bool, sep: string, x: string, y: string): string {
    match (axis, units)
    case (true, true) => "X: " + x + " px" + sep + "Y: " + y + " px"
    case (true, false) => "X: " + x + sep + "Y: " + y
    case (false, true) => x + " px" + sep + y + " px"
    case (false, false) => x + sep + y
  }

  /** `format_value`: both coordinates as `{:.p}` text, put into the template. */
  function PairText(e: PairEntry, v: Vec2): string {
    Template(e.displayAxis, e.displayUnits, e.separator,
             FixedText(v.x, e.precision as nat), FixedText(v.y, e.precision as nat))
  }

  /** One coordinate: its axis name when shown, the number, its unit when shown. */
  function Coordinate(axisName: string, t: string, axis: bool, units: bool): string {
    (if axis then axisName + ": " else "") + WithSuffix(t, " px", units)
  }

  /** Every template is the two coordinates with the separator between them. */
  lemma TemplateLayout(axis: bool, units: bool, sep: string, x: string, y: string)
    ensures Template(axis, units, sep, x, y) == Coordinate("X", x, axis, units) + sep + Coordinate("Y", y, axis, units)
  {
    var cx := Coordinate("X", x, axis, units);
    var cy := Coordinate("Y", y, axis, units);
    match (axis, units)
    case (true, true) =>
      calc {
        "X: " + x + " px" + sep + "Y: " + y + " px";
        ("X: " + x + " px") + sep + ("Y: " + y + " px");
        { assert "X: " + x + " px" == "X: " + (x + " px"); assert "Y: " + y + " px" == "Y: " + (y + " px"); }
        cx + sep + cy;
      }
    case (true, false) =>
      assert "X: " + x + sep + "Y: " + y == ("X: " + x) + sep + ("Y: " + y);
    case (false, true) =>
      assert x + " px" + sep + y + " px" == (x + " px") + sep + (y + " px");
      assert cx == x + " px" && cy == y + " px";
    case (false, false) =>
      assert cx == x && cy == y;
  }

  /** Every rendering is the two coordinates with the separator between them. */
  lemma PairTextLayout(e: PairEntry, v: Vec2)
    ensures PairText(e, v) == Coordinate("X", FixedText(v.x, e.precision as nat), e.displayAxis, e.displayUnits)
      + e.separator + Coordinate("Y", FixedText(v.y, e.precision as nat), e.displayAxis, e.displayUnits)
  {
    TemplateLayout(e.displayAxis, e.displayUnits, e.separator,
                   FixedText(v.x, e.precision as nat), FixedText(v.y, e.precision as nat));
  }

  /** `{:.p}` text starts with a minus sign or a digit. */
  lemma FixedTextStart(v: real, p: nat)
    ensures var s := FixedText(v, p); s[0] == '-' || IsDigit(s[0])
  {
    if v >= 0.0 {
      var n := ScaledRound(v, p);
      var d := DecimalDigits(if p == 0 then n else DropDigits(n, p));
      assert IsDigit(d[0]);
      assert FixedText(v, p)[0] == UnsignedFixed(n, p)[0] == d[0];
    }
  }

  /** Over a first number that starts with a sign or digit, the x axis name leads exactly when shown. */
  lemma TemplateAxis(axis: bool, units: bool, sep: string, x: string, y: string)
    requires |x| >= 1 && (x[0] == '-' || IsDigit(x[0]))
    ensures StartsWith(Template(axis, units, sep, x, y), "X: ") <==> axis
  {
    TemplateLayout(axis, units, sep, x, y);
    var rest := WithSuffix(x, " px", units) + sep + Coordinate("Y", y, axis, units);
    if axis {
      assert Template(axis, units, sep, x, y) == "X: " + rest;
    } else {
      assert Template(axis, units, sep, x, y) == x + ((if units then " px" else "") + sep + Coordinate("Y", y, axis, units));
      assert Template(axis, units, sep, x, y)[0] == x[0];
    }
  }

  /** The text starts with the x axis name exactly when axis names are shown. */
  lemma AxisIffShown(e: PairEntry, v: Vec2)
    ensures StartsWith(PairText(e, v), "X: ") <==> e.displayAxis
  {
    FixedTextStart(v.x, e.precision as nat);
    TemplateAxis(e.displayAxis, e.displayUnits, e.separator,
                 FixedText(v.x, e.precision as nat), FixedText(v.y, e.precision as nat));
  }

  /** Over a second number that ends in a digit, the unit ends the text exactly when shown. */
  lemma TemplateUnits(axis: bool, units: bool, sep: string, x: string, y: string)
    requires |y| >= 1 && IsDigit(y[|y| - 1])
    ensures EndsWith(Template(axis, units, sep, x, y), " px") <==> units
  {
    TemplateLayout(axis, units, sep, x, y);
    var head := Coordinate("X", x, axis, units) + sep + (if axis then "Y: " else "");
    assert Coordinate("Y", y, axis, units) == (if axis then "Y: " else "") + WithSuffix(y, " px", units);
    assert Template(axis, units, sep, x, y) == WithSuffix(head + y, " px", units);
    SuffixIffOn(head + y, " px", units);
  }

  /** The text ends in the unit exactly when units are shown. */
  lemma UnitsIffShown(e: PairEntry, v: Vec2)
    ensures EndsWith(PairText(e, v), " px") <==> e.displayUnits
  {
    TemplateUnits(e.displayAxis, e.displayUnits, e.separator,
                  FixedText(v.x, e.precision as nat), FixedText(v.y, e.precision as nat));
  }

  /** The entry keeps the default colour and highlight hooks. */
  function PairAsEntry(e: PairEntry): (r: Entry<Windows, Vec2>)
    ensures r.labelText == PairLabel(e) && r.sortKey == e.sortKey
    ensures forall ws :: r.updateValue(ws) == PairValue(e, ws)
    ensures forall v :: r.formatValue(v) == PairText(e, v) && r.valueColor(v).None? && !r.valueHighlight(v)
  {
    Entry(PairLabel(e), e.sortKey, ws => PairValue(e, ws), v => PairText(e, v), _ => None, _ => false)
  }

  function ScaleFactorAsEntry(e: ScaleFactorEntry): (r: Entry<Windows, real>)
    ensures r.labelText == ScaleFactorLabel(e) && r.sortKey == e.sortKey
    ensures forall ws :: r.updateValue(ws) == ScaleFactorValue(e, ws)
    ensures forall v :: r.formatValue(v) == ScaleFactorText(e, v) && r.valueColor(v).None? && !r.valueHighlight(v)
  {
    Entry(ScaleFactorLabel(e), e.sortKey, ws => ScaleFactorValue(e, ws), v => ScaleFactorText(e, v), _ => None, _ => false)
  }
}
