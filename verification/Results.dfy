// Shared result types and the time scale used by every module.

module Results {

  datatype Option<+T> = None | Some(value: T)

  /** The source's exceptions become the Failure side of a Result. */
  datatype Result<+T, +E> = Success(value: T) | Failure(error: E)

  /** A point in time, in microseconds: the resolution of the source's datetimes. */
  type Instant = nat

  const SECOND: nat := 1_000_000
}
