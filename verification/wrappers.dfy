/** Option and Result, the project's value types for an absent value and for a failure. */
module Wrappers {

  /** A value that may be absent: JavaScript's `undefined` / SQL `NULL`. */
  datatype Option<+T> = None | Some(value: T)

  /** A computation that either produced a value or raised an error. */
  datatype Result<+T, +E> = Success(value: T) | Failure(error: E)
}
