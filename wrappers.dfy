/** Option and Result, the failure-carrying values used across the model. */
module Wrappers {

  datatype Option<+T> = None | Some(value: T)

  /** The outcome of a service call: a value, or the error the service throws. */
  datatype Result<+R, +E> = Success(value: R) | Failure(error: E)
}
