/** Option and Result, used across the model. */
module Wrappers {

  /** An optional value: a Go pointer that may be nil, or an error that may be absent. */
  datatype Option<+T> = None | Some(value: T)

  /** A value or the error that replaced it. */
  datatype Result<+T, +E> = Success(value: T) | Failure(error: E)
}
