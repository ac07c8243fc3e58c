/** Failure-carrying result types shared by every module of the model. */
module Wrappers {

  /** A value that may be absent: Python's `None` or a raised `ValueError` on an empty `max`. */
  datatype Option<T> = None | Some(value: T)

  /** Either a computed value or the error the source raises instead. */
  datatype Result<T, E> = Ok(value: T) | Err(error: E)
}
