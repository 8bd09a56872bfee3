/** Option and Result datatypes shared by the other modules. */
module Wrappers {

  /** An optional value: a sibling field that may or may not be found. */
  datatype Option<+T> = None | Some(value: T)

  /** A value or the error a Go function would return beside it. */
  datatype Result<+T, +E> = Ok(value: T) | Err(error: E)
}
