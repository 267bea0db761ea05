/** Result types used by the scanners and the restore validator. */
module Wrappers {

  /** A value that may be missing: the model of a C `bool f(..., T& out)` whose
      out-parameter is left untouched on a `false` return. */
  datatype Option<+T> = None | Some(value: T)

  /** Success with a value, or failure with an error. */
  datatype Result<+T, +E> = Ok(value: T) | Err(error: E)
}
