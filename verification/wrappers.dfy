/** Failure-carrying return types shared by the exercises: `Option` for a
    search that may find nothing, `Result` for an operation with an error
    value. */
module Wrappers {

  datatype Option<+T> = None | Some(value: T)

  datatype Result<+T, +E> = Ok(value: T) | Err(error: E)
}
