/** Optional values and success/failure results, shared by every module of the model. */
module Wrappers {

  /** A value that may be absent (TypeScript's `T | undefined`). */
  datatype Option<+T> = None | Some(value: T)

  /** The outcome of an operation that can throw: a value, or what was thrown. */
  datatype Result<+R, +E> = Success(value: R) | Failure(error: E)
}
