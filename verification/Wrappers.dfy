/** The two result types every component of the model uses. */
module Wrappers {
  /** A value that may be missing: a nil pointer, an absent map entry. */
  datatype Option<+T> = None | Some(value: T)

  /** The `(value, error)` pair of a Go function. */
  datatype Result<+T> = Ok(value: T) | Err(error: string)
}
