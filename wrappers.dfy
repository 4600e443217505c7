/** Optional values and success/failure results, as used by the registry. */
module Wrappers {

  /** A value that may be absent (a JavaScript `undefined`, or a `NaN` id). */
  datatype Option<+T> = None | Some(value: T)

  /** The outcome of an operation that can fail with an error of type E. */
  datatype Result<+T, +E> = Ok(value: T) | Err(error: E)
}
