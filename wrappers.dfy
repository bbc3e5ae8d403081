/** Option and Result, the two failure-carrying types the model uses. */
module Wrappers {

  /** A value that may be absent: JavaScript's `null` / `NaN` outcomes. */
  datatype Option<+T> = None | Some(value: T)

  /** Either a value or the reason it could not be produced. */
  datatype Result<+R, +E> = Ok(value: R) | Err(error: E)
}
