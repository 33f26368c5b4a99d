/** Failure-carrying results used throughout the model. */
module Wrappers {

  datatype Option<+T> = None | Some(value: T)

  /** A value or the exception the PHP code would have thrown instead. */
  datatype Result<+T, +E> = Ok(value: T) | Err(error: E)

  /** Success, or the exception an operation that returns nothing would have thrown. */
  datatype Outcome<+E> = Pass | Fail(error: E)
}
