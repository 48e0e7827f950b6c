/** The time that clocks show and observations carry. */
module Clock {
  /** Microseconds. */
  type Time = int

  const SECOND: Time := 1_000_000
}
