/** Failure-compatible wrappers used across the model: an optional value
    (JavaScript's `null`/`undefined` against a present value) and a result
    carrying either a value or an error. */
module Wrappers {

  datatype Option<+T> = None | Some(value: T)

  datatype Result<+R, +E> = Success(value: R) | Failure(error: E)
}
