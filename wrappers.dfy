/** The two result shapes the library returns: `Option` for lookups that may find
    nothing, and `Result` whose error side carries back a rejected value. */
module Wrappers {

  datatype Option<+T> = None | Some(value: T)

  datatype Result<+R, +E> = Ok(value: R) | Err(error: E)
}
