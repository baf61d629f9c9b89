/** Optional values and fallible results, shared by the other modules. */
module Wrappers {

  /** A value that may be absent (`undefined`, `null` or a missing key). */
  datatype Option<+T> = None | Some(value: T)

  /** The outcome of an operation that may fail (a rejected promise, a raised exception). */
  datatype Result<+T, +E> = Ok(value: T) | Err(error: E)
}
