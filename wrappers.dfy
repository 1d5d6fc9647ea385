/** Option and Result, the two failure-carrying values the model uses for
    Python's `None` returns and for the early `return`s of the menu actions. */
module Wrappers {

  datatype Option<+T> = None | Some(value: T)

  datatype Result<+R, +E> = Ok(value: R) | Err(error: E)
}
