/** The two result shapes shared by every module: a value that may be missing,
    and an operation that may raise one of the service exceptions. */
module Wrappers {

  datatype Option<+T> = None | Some(value: T)

  datatype Result<+T, +E> = Ok(value: T) | Err(error: E)
}
