/** Option and Result, the failure-carrying values used throughout the model. */
module Wrappers {

  /** A value that may be absent; used for JSON keys that the decoded reply may lack. */
  datatype Option<+T> = None | Some(value: T)

  /** Either a value or the error that aborted the computation. */
  datatype Result<+T, +E> = Ok(value: T) | Err(error: E)
}
