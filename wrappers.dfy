/** Optional values and outcomes that can fail, used across the model. */
module Wrappers {

  /** A value that may be absent: pandas' NaN after a failed numeric coercion. */
  datatype Option<+T> = None | Some(value: T)

  /** The outcome of a step that can raise. */
  datatype Result<+R, +E> = Success(value: R) | Failure(error: E)
}
