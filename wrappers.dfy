/** Optional values and results, shared by every module of the model. */
module Wrappers {

  datatype Option<+T> = None | Some(value: T)

  /** A value, or the error that a Django form or view reports instead. */
  datatype Result<+T, +E> = Ok(value: T) | Err(error: E)
}
