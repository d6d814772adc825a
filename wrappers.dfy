/** Option and Result for the source's `None` values and raised exceptions. */
module Wrappers {
  datatype Option<+T> = None | Some(value: T)

  datatype Result<+T, +E> = Ok(value: T) | Err(error: E)

  /** A step that either succeeds with no value or fails with an error. */
  datatype Outcome<+E> = Pass | Fail(error: E)
}
