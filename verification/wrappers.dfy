/** Optional values and the outcome of an operation that may raise. */
module Wrappers {

  /** A value that may be absent, as a nullable column or Python's `None`. */
  datatype Option<+T> = None | Some(value: T)

  /** Either the value an operation returns or the exception it raises. */
  datatype Result<+T, +E> = Success(value: T) | Failure(error: E)
}
