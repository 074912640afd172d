/** Outcome types shared by the model: `Option` for values Rust wraps in
    `Option`, `Result` for values Rust wraps in `Result`. */
module Wrappers {

  datatype Option<+T> = None | Some(value: T)

  datatype Result<+T, +E> = Ok(value: T) | Err(error: E)
}
