/** Optional values and results with an error, used for the parts of the
    catalog document that may be absent and for the failures that abort a request. */
module Wrappers {

  /** A value that may be missing (a JSON key that is not there). */
  datatype Option<+T> = None | Some(value: T)

  /** The outcome of an operation that can fail with an error of type E. */
  datatype Result<+T, +E> = Success(value: T) | Failure(error: E)
}
