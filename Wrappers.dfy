/** Success or failure of an operation that the source lets raise. */
module Wrappers {
  datatype Result<T, E> = Ok(value: T) | Err(error: E)

  datatype Option<T> = None | Some(value: T)
}
