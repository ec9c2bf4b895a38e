/** Optional values and error returns, used where the source returns None or raises. */
module Outcomes {

  datatype Option<+T> = None | Some(value: T)

  /** A value, or the error the source would raise or report instead. */
  datatype Result<+T, +E> = Success(value: T) | Failure(error: E)
}
