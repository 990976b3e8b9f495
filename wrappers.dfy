/** Option and Result values for the source's `null`/`undefined` results and thrown errors. */
module Wrappers {

  /** A value that may be absent (`null` or `undefined` in the source). */
  datatype Option<+T> = None | Some(value: T)

  /** An operation that either completes with a value or throws. */
  datatype Result<+T, +E> = Ok(value: T) | Err(error: E)
}
