/** Failure-compatible wrappers shared by the other modules. */
module Wrappers {

  /** A value that may be absent (JavaScript's `undefined` / `NaN` results). */
  datatype Option<+T> = None | Some(value: T)

  /** The outcome of an asynchronous call: a value, or the error it rejected with. */
  datatype Result<+T, +E> = Success(value: T) | Failure(error: E)
}
