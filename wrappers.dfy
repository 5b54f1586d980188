/** Option and Result, for the source's `Option` and `Result` values. */
module Wrappers {
  datatype Option<+X> = None | Some(value: X)

  datatype Result<+X, +E> = Ok(value: X) | Err(error: E)
}
