/** Option and Result: absence and failure as values instead of null and exceptions. */
module Wrappers {

  datatype Option<+T> = None | Some(value: T)

  /** The outcome of an awaited promise: resolved with a value or rejected with a reason. */
  datatype Result<+T, +E> = Success(value: T) | Failure(error: E)
}
