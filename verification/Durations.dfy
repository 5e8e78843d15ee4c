/** Time spans in nanoseconds. */
module Durations {
  const MILLISECOND: int := 1_000_000
  const SECOND: int := 1000 * MILLISECOND
  const MINUTE: int := 60 * SECOND
}
