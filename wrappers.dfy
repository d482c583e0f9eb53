/** Failure-compatible wrappers shared by the other modules. */
module Wrappers {

  /** A value that may be absent. */
  datatype Option<+T> = None | Some(value: T)

  /** A value, or the exception that the Python code would have raised instead. */
  datatype Result<+T, +E> = Ok(value: T) | Err(error: E)
}
