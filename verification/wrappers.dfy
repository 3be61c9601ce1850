/** Failure-carrying result types shared by the whole model. */
module Wrappers {

  /** A value that may be absent (a missing cell, a failed lookup). */
  datatype Option<+T> = None | Some(value: T)

  /** The outcome of an operation that raises in the source: a value or the error raised. */
  datatype Result<+T, +E> = Success(value: T) | Failure(error: E)
}
