/** Option and Result values shared by the modules of this project. */
module Wrappers {

  datatype Option<+T> = None | Some(value: T)

  /** Either a value or the exception the source would raise instead. */
  datatype Result<+T, +E> = Ok(value: T) | Err(error: E)
}
