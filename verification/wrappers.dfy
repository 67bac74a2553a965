/** Failure-carrying datatypes shared by the registry and dispatcher model. */
module Wrappers {

  /** A value that may be absent: PHP's `false` return of a lookup. */
  datatype Option<+T> = None | Some(value: T)

  /** A computation that either succeeds or raises an exception. */
  datatype Result<+T, +E> = Ok(value: T) | Err(error: E)
}
