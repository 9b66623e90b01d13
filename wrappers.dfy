/** Failure-compatible helper datatypes shared by every module of the model. */
module Wrappers {

  datatype Option<+T> = None | Some(value: T)

  /** The value of an operation that either produces a result or fails with an error. */
  datatype Result<+T, +E> = Ok(value: T) | Err(error: E)

  /** The outcome of an operation that produces no value but may fail. */
  datatype Outcome<+E> = Pass | Fail(error: E)
}
