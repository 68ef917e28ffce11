/** Option and Result, used where the source returns null or raises. */
module Wrappers {

  /** A value that may be absent (PHP `null`). */
  datatype Option<+T> = None | Some(value: T)

  /** The outcome of an operation that may raise: `Failure` carries what the exception names. */
  datatype Result<+T, +E> = Success(value: T) | Failure(error: E)
}
