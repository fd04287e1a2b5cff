/** Option and Result wrappers shared by the model. */
module Wrappers {
  /** A value that may be absent (Go's nil map, nil pointer or "no such entry"). */
  datatype Option<T> = None | Some(value: T)

  /** An outcome that is either a value or an error message (Go's `(value, error)` pair). */
  datatype Result<T> = Success(value: T) | Failure(error: string)
}
