/** Small failure-compatible values shared by the other modules. */
module Wrappers {

  /** A value that may be absent (Python's `None`). */
  datatype Option<T> = None | Some(value: T)

  /** The outcome of an operation that can raise: the raised error or the value. */
  datatype Result<T, E> = Ok(value: T) | Err(error: E)
}
