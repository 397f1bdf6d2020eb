/** Optional values and results with an error, the shapes Rust's `Option` and `Result` take here. */
module Outcomes {

  datatype Option<T> = None | Some(value: T)

  datatype Result<T, E> = Ok(value: T) | Err(error: E)
}
