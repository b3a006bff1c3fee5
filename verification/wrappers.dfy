/** Failure-carrying wrappers shared by every module of the model. */
module Wrappers {

  /** An optional value: the model's rendering of `null`/`undefined`. */
  datatype Option<+T> = None | Some(value: T)

  /** A value or an error: the model's rendering of a function that may throw. */
  datatype Result<+T, +E> = Ok(value: T) | Err(error: E)
}
