/** Option and Result, the failure-carrying values used throughout the model. */
module Wrappers {

  datatype Option<+T> = None | Some(value: T)

  /** A computation that either yields a value or stops the program with an error. */
  datatype Result<+T, +E> = Success(value: T) | Failure(error: E)
}
