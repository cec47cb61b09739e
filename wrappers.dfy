/** Failure-carrying wrappers used throughout the model. */
module Wrappers {

  /** A value that may be absent; `None` stands for a Java `null` return. */
  datatype Option<+T> = None | Some(value: T)

  /** Either a value or the exception that replaced it. */
  datatype Result<+T, +E> = Ok(value: T) | Err(error: E)
}
