/** Small failure-carrying datatypes shared by the other modules. */
module Wrappers {

  /** A value that may be absent: a nil reference, interface or error in Go. */
  datatype Option<+T> = None | Some(value: T)

  /** Either a value or the error that prevented computing it: Go's `(T, error)` pair. */
  datatype Result<+T, +E> = Ok(value: T) | Err(error: E)
}
