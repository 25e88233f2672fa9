/** Failure-carrying results shared by every module of the model. */
module Outcomes {

  /** An optional value: the result of a parser or of a formula evaluation. */
  datatype Option<+T> = None | Some(value: T)

  /** The result of an operation that either succeeds with a value or fails with an error. */
  datatype Result<+T, +E> = Ok(value: T) | Err(error: E)
}
