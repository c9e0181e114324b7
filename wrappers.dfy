/** Failure-compatible wrappers shared by every module of the model. */
module Wrappers {

  /** A value that may be absent: SQL NULL, Python None, a row no query found. */
  datatype Option<+T> = None | Some(value: T)

  /** The outcome of an operation whose source raises an exception on failure. */
  datatype Result<+T, +E> = Ok(value: T) | Err(error: E)
}
