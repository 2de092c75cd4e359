/** Optional values and results with an error branch, shared by every module. */
module Wrappers {

  /** A value that may be absent: Django's nullable foreign keys and `None`. */
  datatype Option<+T> = None | Some(value: T)

  /** The outcome of an operation that either yields a value or raises an error. */
  datatype Result<+T, +E> = Ok(value: T) | Fail(error: E)
}
