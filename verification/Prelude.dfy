/** Values every part of the model shares: an optional value, the clock, and a
    few facts about finite sequences and runs. */
module Prelude {
  datatype Option<+T> = None | Some(value: T)

  // A Go time.Time is an instant in nanoseconds since the unix epoch. Reports and
  // finish stamps are denominated in whole milliseconds.
  const NANOS_PER_MILLI := 1_000_000
  const NANOS_PER_SECOND := 1_000_000_000

  /** time.Time.UnixMilli: the millisecond the instant falls in, rounded down. */
  function UnixMilli(t: int): int {
    t / NANOS_PER_MILLI
  }

  /** time.UnixMilli: the instant a millisecond begins. */
  function FromMilli(ms: int): int {
    ms * NANOS_PER_MILLI
  }

  function Take<T>(s: seq<T>, n: nat): (r: seq<T>)
    ensures |r| <= n && r <= s
  {
    if |s| <= n then s else s[..n]
  }
}
