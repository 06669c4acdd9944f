/** Option and Result values for the error paths of the model. */
module Wrappers {

  datatype Option<+T> = None | Some(value: T)

  /** The outcome of an operation that the Python code lets raise: `Err` carries the raise site. */
  datatype Result<+T, +E> = Ok(value: T) | Err(error: E)
}
