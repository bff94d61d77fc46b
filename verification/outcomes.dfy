/** Option and Result values: the model's stand-ins for JavaScript's
    `undefined` and for a thrown `TypeError`. */
module Outcomes {

  /** A value that may be absent (`undefined` in the source). */
  datatype Option<+T> = None | Some(value: T)

  /** The outcome of a computation that may throw in the source. */
  datatype Result<+T, +E> = Ok(value: T) | Err(error: E)
}
