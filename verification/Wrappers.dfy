/** Failure-carrying wrappers shared by the model. */
module Wrappers {

  /** An optional value: the model's counterpart of a nullable pointer. */
  datatype Option<+T> = None | Some(value: T)

  /** A value or an error: the model's counterpart of a call that may throw. */
  datatype Result<+T, +E> = Ok(value: T) | Err(error: E)
}
