/** Failure-carrying results shared by the modules of the model. */
module Wrappers {

  /** A value that may be absent (a Python lookup that raises, or `None`). */
  datatype Option<T> = None | Some(value: T)

  /** A value or the error that Python would have raised instead. */
  datatype Result<T, E> = Ok(value: T) | Err(error: E)
}
