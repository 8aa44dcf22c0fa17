/** Failure-carrying wrappers shared by the other modules. */
module Wrappers {

  /** A value that may be absent (JavaScript `null` / `undefined`). */
  datatype Option<+T> = None | Some(value: T)

  /** The value of a computation that either succeeds or throws. */
  datatype Result<+T, +E> = Success(value: T) | Failure(error: E)
}
