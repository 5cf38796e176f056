/** Option and Result shared by the rest of the model. */
module Wrappers {

  /** A value that may be absent; `None` stands for Go's nil. */
  datatype Option<+T> = None | Some(value: T)

  /** Either a value or the error that prevented it (Go's `(T, error)` pair). */
  datatype Result<+T, +E> = Success(value: T) | Failure(error: E)
}
