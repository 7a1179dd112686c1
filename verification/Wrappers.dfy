/** Result and option types shared by the whole model. */
module Wrappers {

  datatype Option<+T> = None | Some(value: T)

  /** The outcome of a Go function that returns (value, error). */
  datatype Result<+T, +E> = Ok(value: T) | Err(error: E)
}
