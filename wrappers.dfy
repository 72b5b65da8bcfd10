/** Optional values and results with an error, used throughout the model in
    place of Go's `(value, error)` pairs and ECMAScript's exceptions. */
module Wrappers {

  datatype Option<+T> = None | Some(value: T)

  datatype Result<+T, +E> = Success(value: T) | Failure(error: E)
}
