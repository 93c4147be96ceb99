/** Option and Result, shared by the other modules. */
module Wrappers {

  /** A value that may be absent; `None` stands for JavaScript's `undefined`. */
  datatype Option<+T> = None | Some(value: T)

  /** The outcome of a step that can abort initialisation. */
  datatype Result<+T, +E> = Ok(value: T) | Err(error: E)
}
