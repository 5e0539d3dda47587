/** Failure-compatible wrappers used across the model: an optional value
    (Python's `None` or a value) and the outcome of an operation that can raise. */
module Wrappers {

  /** `None` or a present value, as a Python argument that defaults to `None`. */
  datatype Option<+T> = None | Some(value: T)

  /** The result of a constructor that either returns or raises. */
  datatype Result<+R, +E> = Success(value: R) | Failure(error: E)
}
