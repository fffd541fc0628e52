/** Option and Result values shared by every module of the model. */
module Wrappers {

  /** A value that may be missing: JavaScript's `null`/`undefined` next to a real value. */
  datatype Option<+T> = None | Some(value: T)

  /** The outcome of a step that can fail with an error value instead of throwing. */
  datatype Result<+T, +E> = Ok(value: T) | Err(error: E)
}
