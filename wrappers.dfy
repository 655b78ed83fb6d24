/** Option and Result, the failure-carrying values used across the model. */
module Wrappers {

  datatype Option<+T> = None | Some(value: T)

  /** The outcome of an operation that either produces a value or reports an error. */
  datatype Result<+R, +E> = Success(value: R) | Failure(error: E)
}
