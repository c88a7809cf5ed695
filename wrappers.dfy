/** Option and Result, the two failure-carrying shapes the rest of the model uses. */
module Wrappers {

  /** A value that may be absent: Python's None, or a pandas NaN cell. */
  datatype Option<+T> = None | Some(value: T)

  /** The value of an operation, or the exception it raises. */
  datatype Result<+T, +E> = Ok(value: T) | Err(error: E)
}
