/** Failure-compatible wrappers shared by every module of the model. */
module Wrappers {

  /** A value that may be absent: `None` stands for Python's `None` and for a null cell. */
  datatype Option<+T> = None | Some(value: T)

  /** The outcome of an operation that either produces a value or stops the tool with an error. */
  datatype Result<+T, +E> = Ok(value: T) | Err(error: E)
}
