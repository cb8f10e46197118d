/** Option and Result, the two failure-carrying wrappers the rest of the model uses. */
module Wrappers {

  datatype Option<+T> = None | Some(value: T)

  /** Either a value or an error: a parse outcome, or a store call that returned or threw. */
  datatype Result<+T, +E> = Ok(value: T) | Err(error: E)
}
