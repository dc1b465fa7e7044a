/** Failure-compatible wrappers used by every stage of the extraction pipeline. */
module Wrappers {

  datatype Option<+T> = None | Some(value: T)

  datatype Result<+T, +E> = Ok(value: T) | Err(error: E)
}
