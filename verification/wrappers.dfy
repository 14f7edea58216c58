/** Failure-carrying datatypes shared by every module of the model. */
module Wrappers {

  /** An optional value: the model's stand-in for `undefined`/`null` where the source allows it. */
  datatype Option<+T> = None | Some(value: T)

  /** Either a value or the error the source would have thrown. */
  datatype Result<+T, +E> = Ok(value: T) | Err(error: E)
}
