/** Failure-compatible wrappers shared by the model. */
module Wrappers {

  /** An optional value; a JSON `null` is `None`. */
  datatype Option<+T> = None | Some(value: T)

  /** The outcome of an operation that can raise. */
  datatype Result<+T, +E> = Ok(value: T) | Err(error: E)
}
