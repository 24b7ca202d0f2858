/** Option and Result, the failure-carrying values the chess model returns. */
module Wrappers {

  datatype Option<+T> = None | Some(value: T)

  /** A computation that either produced a value or raised the error `error`. */
  datatype Result<+T, +E> = Ok(value: T) | Err(error: E)
}
