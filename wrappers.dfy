/** Option and Result, the two failure-carrying values the model uses in place
    of Go's (value, ok) and (value, err) returns. */
module Wrappers {

  datatype Option<+T> = None | Some(value: T)

  datatype Result<+T, +E> = Success(value: T) | Failure(error: E)
}
