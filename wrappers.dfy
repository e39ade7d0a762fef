/** Option, Result and Outcome: the value forms of Go's `nil`, `(value, error)` and `error`. */
module Wrappers {

  /** A Go pointer or map entry that may be absent (`nil`). */
  datatype Option<+T> = None | Some(value: T)

  /** A Go `(value, error)` pair: exactly one side is meaningful. */
  datatype Result<+T, +E> = Success(value: T) | Failure(error: E)

  /** A Go `error` return: `Pass` stands for `nil`. */
  datatype Outcome<+E> = Pass | Fail(error: E)
}
