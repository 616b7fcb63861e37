/** Success-or-failure results, for the (value, error) and (value, ok) pairs of the Go code. */
module Wrappers {

  datatype Option<+T> = None | Some(value: T)
  datatype Result<+T, +E> = Ok(value: T) | Err(error: E)
}
