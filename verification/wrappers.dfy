/** Optional values and success-or-error results, used for C null pointers and for failures. */
module Wrappers {

  /** A value that may be absent; None stands for a C null pointer or an unset variable. */
  datatype Option<+T> = None | Some(value: T)

  /** The outcome of a step that either produces a value or fails with an error. */
  datatype Result<+R, +E> = Ok(value: R) | Err(error: E)
}
