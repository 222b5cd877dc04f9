/** Failure-compatible wrappers used throughout the model: an optional value
    (a possibly-null pointer at the boundary) and a success-or-error result
    (the `Result<T, Error>` the Rust helpers return). */
module Wrappers {

  datatype Option<+T> = None | Some(value: T)

  datatype Result<+T, +E> = Success(value: T) | Failure(error: E)
}
