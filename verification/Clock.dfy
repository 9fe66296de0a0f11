/** Steady-clock times and durations, in nanoseconds. */
module Clock {
  const MILLISECOND := 1_000_000
  const SECOND := 1000 * MILLISECOND
}
