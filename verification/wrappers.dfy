/** Failure-carrying wrappers used throughout the model. */
module Wrappers {

  /** A value that may be absent, as a Go `(value, ok)` pair. */
  datatype Option<+T> = None | Some(value: T)

  /** The outcome of a step that can fail with an error of type `E`. */
  datatype Result<+R, +E> = Success(value: R) | Failure(error: E)
}
