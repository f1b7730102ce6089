/** Optional values and results with an error, for the source's `undefined` and its callbacks'
    `(error, value)` pairs. */
module Wrappers {

  datatype Option<+T> = None | Some(value: T)

  datatype Result<+T, +E> = Success(value: T) | Failure(error: E)
}
