/** Optional values and results with an error, as used throughout the model. */
module Wrappers {

  /** A value that may be absent: a missing (NaN) cell or an unset environment variable. */
  datatype Option<+T> = None | Some(value: T)

  /** The outcome of a call that may raise instead of returning a value. */
  datatype Result<+R, +E> = Success(value: R) | Failure(error: E)
}
