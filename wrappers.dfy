/** Option and Result, shared by the other modules. */
module Wrappers {

  /** A value that may be absent; `None` stands for Go's nil. */
  datatype Option<+T> = None | Some(value: T)

  /** A value or an error, as Go's `(value, error)` pairs. */
  datatype Result<+R, +E> = Success(value: R) | Failure(error: E)
}
