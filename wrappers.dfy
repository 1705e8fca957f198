/** Option and Result, the failure-carrying values used across the model. */
module Wrappers {

  datatype Option<+T> = None | Some(value: T)

  /** `Err` stands for a raised Python exception, carrying its message. */
  datatype Result<+T, +E> = Ok(value: T) | Err(error: E)
}
