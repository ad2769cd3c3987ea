/** Optional values and results with an error case. */
module Wrappers {

  /** A value that may be missing: an empty CSV cell, or a NaN statistic. */
  datatype Option<T> = None | Some(value: T)

  /** The outcome of an operation that can fail. */
  datatype Result<T, E> = Success(value: T) | Failure(error: E)
}
