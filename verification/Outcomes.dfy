/** Results of operations that may fail. */
module Outcomes {

  datatype Option<+T> = None | Some(value: T)

  /** A returned value, a returned error, or a run-time panic. */
  datatype Result<+T, +E> = Ok(value: T) | Err(error: E) | Panic
}
