/** Rust's standard `Option` and `Result`, as the rest of the model uses them. */
module Prelude {

  datatype Option<+T> = None | Some(value: T)

  datatype Result<+T, +E> = Ok(value: T) | Err(error: E)
}
