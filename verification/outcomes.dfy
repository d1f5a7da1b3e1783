/** Failure-carrying values: the model's stand-in for Python exceptions. */
module Outcomes {

  datatype Option<+T> = None | Some(value: T)

  /** Either the value an operation computed or the message of the exception it raised. */
  datatype Result<+T, +E> = Success(value: T) | Failure(error: E)
}
