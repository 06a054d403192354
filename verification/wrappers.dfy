/** Option and Result datatypes shared by the other modules. */
module Wrappers {

  /** A value that may be absent. */
  datatype Option<+T> = None | Some(value: T)

  /** The outcome of a fallible operation: a value, or the error that stopped it. */
  datatype Result<+T, +E> = Ok(value: T) | Err(error: E)
}
