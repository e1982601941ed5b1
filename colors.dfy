/**
 * Colours as the overlay handles them: four channels in sRGB space, and
 * the colour gradients that map a metric value to a colour.
 */
module Colors {
  import opened Wrappers

  /** An sRGBA colour; channels are nominally in [0, 1]. */
  datatype Color = Rgba(r: real, g: real, b: real, a: real)

  /** An opaque colour (`Color::rgb` / `Color::srgb`). */
  function Srgb(r: real, g: real, b: real): Color {
    Rgba(r, g, b, 1.0)
  }

  const NONE: Color := Rgba(0.0, 0.0, 0.0, 0.0)
  const RED: Color := Srgb(1.0, 0.0, 0.0)
  const GREEN: Color := Srgb(0.0, 1.0, 0.0)
  const WHITE: Color := Srgb(1.0, 1.0, 1.0)

  /** The same colour with its red and green channels exchanged. */
  function SwapRG(c: Color): Color {
    Rgba(c.g, c.r, c.b, c.a)
  }

  predicate InUnit(x: real) {
    0.0 <= x <= 1.0
  }

  predicate ChannelsInUnit(c: Color) {
    InUnit(c.r) && InUnit(c.g) && InUnit(c.b) && InUnit(c.a)
  }

  /**
   * A colour gradient over metric values. Only the parts the overlay
   * observes are kept: the lowest and highest stop positions, and the
   * colour it yields for a value (none when the gradient has no stops).
   */
  datatype ColorGradient = ColorGradient(
    minStop: Option<real>,
    maxStop: Option<real>,
    colorFor: real -> Option<Color>)
  {
    /** Stops exist together, and the lowest is not above the highest. */
    predicate Valid() {
      && minStop.Some? == maxStop.Some?
      && (minStop.Some? ==> minStop.value <= maxStop.value)
    }
  }

  /** A gradient without stops. */
  function EmptyGradient(): (g: ColorGradient)
    ensures g.Valid() && g.minStop.None?
    ensures forall x :: g.colorFor(x).None?
  {
    ColorGradient(None, None, _ => None)
  }
}
