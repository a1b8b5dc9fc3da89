/** Optional values and results with an error, used where the PHP code
    returns `null` or throws. */
module Wrappers {

  /** A value that may be absent (PHP `null`). */
  datatype Option<+T> = None | Some(value: T)

  /** The outcome of an operation that may throw instead of returning. */
  datatype Result<+T, +E> = Success(value: T) | Failure(error: E)
}
