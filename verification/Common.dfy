/** Shared vocabulary: options, time in nanoseconds, and the whole-second
    timestamps the daemon writes to its state file. */
module Common {

  datatype Option<+T> = None | Some(value: T)

  /** Nanoseconds since the Unix epoch. */
  type Time = int

  /** Nanoseconds. */
  type Duration = int

  const SECOND: Duration := 1_000_000_000
  const MINUTE: Duration := 60 * SECOND
  const HOUR: Duration := 60 * MINUTE

  /** Go's zero time.Time (1 January of year 1), which time.Parse leaves behind on failure. */
  const ZERO_TIME: Time := -62_135_596_800 * SECOND

  /** An RFC3339 timestamp keeps whole seconds only. */
  function Stamp(t: Time): (r: Time)
    ensures r <= t < r + SECOND
    ensures r % SECOND == 0
  {
    t - t % SECOND
  }

  function Min(a: int, b: int): int {
    if a <= b then a else b
  }

  function Max(a: int, b: int): int {
    if a >= b then a else b
  }
}
