/** Optional values and results with an error message, shared by the other modules. */
module Outcomes {
  datatype Option<T> = None | Some(value: T)

  /** The outcome of an operation that may raise: its value, or the text of the exception. */
  datatype Result<T> = Ok(value: T) | Err(msg: string)
}
