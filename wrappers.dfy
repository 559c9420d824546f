/** Failure-carrying values used across the model. */
module Wrappers {

  /** A value that may be absent. */
  datatype Option<+T> = None | Some(value: T)

  /** A computation that either succeeds with a value or fails with an error that
      stands for the exception the pipeline raises. */
  datatype Result<+R, +E> = Ok(value: R) | Err(error: E)
}
