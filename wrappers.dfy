/** Option and Result, the two failure-carrying datatypes the model uses. */
module Wrappers {

  /** A value that may be absent (pandas' NaN / Python's None). */
  datatype Option<+T> = None | Some(value: T)

  /** Either a value or the message of the exception the source raises. */
  datatype Result<+R, +E> = Ok(value: R) | Err(error: E)
}
