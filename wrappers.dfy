/** Failure-compatible wrappers for the Go `(value, error)` return convention. */
module Wrappers {

  datatype Option<+T> = None | Some(value: T)

  /** `Success(v)` stands for `(v, nil)`, `Failure(e)` for `(nil, e)`. */
  datatype Result<+R, +E> = Success(value: R) | Failure(error: E)
}
