/** The two failure-or-value shapes the quiz model needs. */
module Wrappers {

  /** A value that may be JavaScript's `null`. */
  datatype Option<+T> = None | Some(value: T)

  /** The outcome of an operation that either produces a value or fails with an error. */
  datatype Result<+T, +E> = Ok(value: T) | Err(error: E)
}
