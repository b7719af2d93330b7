/** Option and Result values shared by every module of the model. */
module Wrappers {
  datatype Option<T> = None | Some(value: T)

  /** A Go `(value, error)` pair where only one half is meaningful. */
  datatype Result<T> = Ok(value: T) | Err(error: string)
}
