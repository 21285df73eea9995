/** Optional values and error-carrying results shared by every module. */
module Wrappers {

  /** Python's `None` or a present value. */
  datatype Option<T> = None | Some(value: T)

  /** A value, or the error an operation raised or returned. */
  datatype Result<T, E> = Ok(value: T) | Err(error: E)
}
