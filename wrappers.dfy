/** Nullable cells and failing operations. */
module Wrappers {

  /** A table cell that may be missing (pandas NaN / NaT / None). */
  datatype Option<+T> = None | Some(value: T)

  /** An operation that either produces a value or raises. */
  datatype Result<+T> = Ok(value: T) | Err(message: string)
}
