/** Go's `(value, error)` returns: an absent error is `None`, a present one `Some(message)`. */
module Wrappers {

  datatype Option<+T> = None | Some(value: T)

  datatype Result<+T, +E> = Success(value: T) | Failure(error: E)
}
