/** Option and Result, used for the sentinel year and for the errors the frame-rate rule raises. */
module Wrappers {

  datatype Option<+T> = None | Some(value: T)

  datatype Result<+R, +E> = Ok(value: R) | Err(error: E)
}
