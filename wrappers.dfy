/** Option and Result, the failure-carrying values the model returns instead of Go's
    `(value, error)` pairs and Python's exceptions. */
module Wrappers {

  datatype Option<+T> = None | Some(value: T)

  datatype Result<+R, +E> = Success(value: R) | Failure(error: E)
}
