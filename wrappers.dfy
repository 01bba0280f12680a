/** Failure-carrying values shared by every module of the model. */
module Wrappers {

  /** A value that may be absent: JavaScript's `null`/`undefined`. */
  datatype Option<+T> = None | Some(value: T)

  /** A value or the error an awaited call rejected with. */
  datatype Result<+T, +E> = Ok(value: T) | Err(error: E)
}
