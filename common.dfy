/** Failure-compatible wrappers shared by every component of the model. */
module Common {

  /** A value that may be absent: Python's `None`, or an oracle that can fail. */
  datatype Option<+T> = None | Some(value: T)

  /** The outcome of a step that either produces a value or raises an error. */
  datatype Result<+T, +E> = Ok(value: T) | Err(error: E)
}
