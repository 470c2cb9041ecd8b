/** Failure-carrying values shared by the whole model. */
module Wrappers {
  datatype Option<+T> = None | Some(value: T)

  /** A value, or the reason the source raises an exception instead of returning one. */
  datatype Result<+T, +E> = Ok(value: T) | Err(error: E)
}
