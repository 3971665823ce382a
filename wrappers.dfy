/** Option and Result datatypes shared by the other modules. */
module Wrappers {

  /** An optional value: `None` where the source has nothing (a missing column, a failed parse). */
  datatype Option<+T> = None | Some(value: T)

  /** The outcome of validating one field: the typed value, or the reason it was refused. */
  datatype Result<+T, +E> = Ok(value: T) | Err(error: E)
}
