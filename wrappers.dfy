/** Option and Result, the two failure-carrying shapes the model uses. */
module Wrappers {

  datatype Option<+T> = None | Some(value: T)

  /** A value or the error that took its place (Go's `(v, err)` pair). */
  datatype Result<+T, +E> = Ok(value: T) | Err(error: E)
}
