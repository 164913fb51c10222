/** The two result shapes every store and script shares. */
module Wrappers {

  datatype Option<+T> = None | Some(value: T)

  /** The outcome of an operation that can refuse. */
  datatype Result<+T, +E> = Ok(value: T) | Err(error: E)
}
