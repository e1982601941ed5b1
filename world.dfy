/** The few Bevy notions the overlay's logic refers to. */
module World {
  /** An entity identifier. */
  type Entity = nat

  /** A font asset handle; `Handle::default()` is `DEFAULT_FONT`. */
  type FontHandle = nat

  const DEFAULT_FONT: FontHandle := 0
}
