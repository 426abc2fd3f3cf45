/**
 Shared vocabulary of the task-management API model: optional values, results,
 identifiers and the millisecond clock.
 */
module Common {

  /** A value that may be absent (a JavaScript `undefined` field). */
  datatype Option<+T> = None | Some(value: T) {
    function GetOr(default: T): T {
      match this
      case Some(v) => v
      case None => default
    }
  }

  /** The outcome of an operation that either produces a value or fails with an error. */
  datatype Result<+T, +E> = Ok(value: T) | Err(error: E)

  /** Store identifiers. The database hands them out in increasing order. */
  type TaskId = nat
  type UserId = nat

  /** Timestamps are integer milliseconds since the epoch. */
  const MsPerDay: int := 24 * 60 * 60 * 1000

  /** The largest magnitude a JavaScript `Date` can hold (section 21.4.1.1 of
      ECMA-262): 100,000,000 days either side of the epoch. */
  const MaxTimeValue: int := 100_000_000 * MsPerDay

  /** A time value a `Date` can represent; any other number gives an Invalid Date. */
  predicate InTimeRange(ms: int) {
    -MaxTimeValue <= ms <= MaxTimeValue
  }
}
