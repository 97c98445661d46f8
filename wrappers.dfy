/** Option and Result values shared by every module of the model. */
module Wrappers {

  /** A value that may be absent: JavaScript's `undefined`/`null` next to a present value. */
  datatype Option<+T> = None | Some(value: T)

  /** The outcome of a step that can throw: the value it returns, or the error it raises. */
  datatype Result<+T, +E> = Ok(value: T) | Err(error: E)
}
