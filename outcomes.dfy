/** Optional values and results with an error, as used throughout the model. */
module Outcomes {

  datatype Option<T> = None | Some(value: T)

  /** A computation that either produced a value or stopped with an error
      (the model's stand-in for a raised exception). */
  datatype Result<T, E> = Ok(value: T) | Err(error: E)
}
