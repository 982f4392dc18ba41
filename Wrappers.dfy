/** Failure-compatible result type for operations that the source ends with an exception. */
module Wrappers {
  datatype Result<+T, +E> = Success(value: T) | Failure(error: E)
}
