/** Results of operations that may find nothing, fail with an error, or panic. */
module Outcomes {
  datatype Option<+T> = None | Some(value: T)

  /** What a Go function gives its caller: a value, a non-nil error, or a run-time panic. */
  datatype Outcome<+T, +E> = Ok(value: T) | Err(error: E) | Panic
}
