/** Option and Result, the model's replacement for C# null and exceptions. */
module Wrappers {

  /** A value that may be absent (a C# nullable reference). */
  datatype Option<+T> = None | Some(value: T)

  /** The outcome of an operation that may throw. */
  datatype Result<+T, +E> = Ok(value: T) | Err(error: E)
}
