/** Optional values and failure-carrying results used throughout the model. */
module Wrappers {

  datatype Option<+T> = None | Some(value: T)

  /** A computation that either yields a value or raises an error. */
  datatype Result<+T, +E> = Success(value: T) | Failure(error: E)

  /** A check that either passes or raises an error (a function returning `void` or throwing). */
  datatype Outcome<+E> = Pass | Fail(error: E)
}
