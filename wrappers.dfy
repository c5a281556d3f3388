/** Option and Result, the two shapes every server here uses for "maybe nothing" and "maybe an error". */
module Wrappers {

  datatype Option<+T> = None | Some(value: T)

  datatype Result<+T, +E> = Ok(value: T) | Err(error: E)
}
