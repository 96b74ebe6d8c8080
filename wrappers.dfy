/** Failure-carrying wrappers used to model panics and error returns. */
module Wrappers {

  /** `None` stands for a call that would panic in the modelled code. */
  datatype Option<+T> = None | Some(value: T)

  /** The modelled code's `Result<T, E>`. */
  datatype Result<+T, +E> = Ok(value: T) | Err(error: E)
}
