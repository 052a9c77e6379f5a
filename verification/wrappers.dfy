/** Failure-carrying datatypes shared by every module of the model. */
module Wrappers {

  /** A value that may be absent: JavaScript's `null` / `undefined` slot. */
  datatype Option<+T> = None | Some(value: T)

  /** The outcome of an operation that may throw: `Ok` carries the returned
      value, `Err` the thrown one. */
  datatype Result<+R, +E> = Ok(value: R) | Err(error: E)
}
