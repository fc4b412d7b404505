/** Failure-compatible wrappers used across the model. */
module Wrappers {

  /** A value that may be absent (JavaScript `undefined`). */
  datatype Option<+T> = None | Some(value: T)

  /** Either a value or the error a call throws. */
  datatype Result<+R, +E> = Success(value: R) | Failure(error: E)
}
