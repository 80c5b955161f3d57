/** Failure-carrying values shared by the whole model. */
module Wrappers {

  /** A value that may be absent: Python's `Optional[T]`. */
  datatype Option<+T> = None | Some(value: T)

  /** The outcome of an operation that may raise: `Err` carries the exception's message. */
  datatype Result<+T> = Ok(value: T) | Err(message: string)
}
