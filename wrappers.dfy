/** The result of an operation that the source ends with a panic on bad input. */
module Wrappers {

  datatype Result<T, E> = Ok(value: T) | Err(error: E)

  datatype Option<T> = None | Some(value: T)
}
