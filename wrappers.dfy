/** Option and Result values shared by the modules of the model. */
module Wrappers {

  datatype Option<+T> = None | Some(value: T)

  /** An operation's outcome: a value, or the error the source raises or returns instead. */
  datatype Result<+R, +E> = Ok(value: R) | Err(error: E)
}
