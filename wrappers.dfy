/** Optional values and success-or-error results, as the gateway's return shapes. */
module Wrappers {

  datatype Option<+T> = None | Some(value: T)

  /** The outcome of an operation that the source signals by raising: a value or an error. */
  datatype Result<+T, +E> = Ok(value: T) | Err(error: E)
}
