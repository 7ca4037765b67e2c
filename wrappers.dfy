/** Option and Result, the two failure-carrying datatypes the model uses. */
module Wrappers {

  datatype Option<+T> = None | Some(value: T)

  /** A Go `(value, error)` pair where the value is meaningful only when the error is nil. */
  datatype Result<+T, +E> = Ok(value: T) | Err(error: E)
}
