/** Optional values and results that carry an error, for the Go functions that
    return a `(value, error)` pair or report "not found". */
module Wrappers {

  datatype Option<+T> = None | Some(value: T)

  datatype Result<+R, +E> = Success(value: R) | Failure(error: E)
}
