/** Shared vocabulary: optional values, results, identifiers and time. */
module Common {
  datatype Option<+T> = None | Some(value: T)

  datatype Result<+T, +E> = Ok(value: T) | Err(error: E)

  /** A UUID, compared only for equality. */
  datatype Uuid = Uuid(bits: nat)

  function Min(a: int, b: int): int {
    if a < b then a else b
  }

  /** Instants and durations, in nanoseconds. */
  type Time = int

  const SECOND: Time := 1_000_000_000
  const MINUTE: Time := 60 * SECOND

  /** The start of the second that `t` falls in. */
  function WholeSecond(t: Time): (s: Time)
    ensures s <= t < s + SECOND && s % SECOND == 0
  {
    t - t % SECOND
  }
}
