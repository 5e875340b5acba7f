/** Failure-carrying values shared by the other modules. */
module Wrappers {

  /** A value that may be absent (Go's nil map, nil error, or a failed parse). */
  datatype Option<+T> = None | Some(value: T)

  /** Either the value a call produced or the error it returned. */
  datatype Result<+T, +E> = Success(value: T) | Failure(error: E)
}
