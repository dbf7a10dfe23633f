/** Failure-compatible wrappers used across the model: `Option` stands for a
    JavaScript value that may be `undefined`/`null`, `Result` for a call that
    either returns or throws. */
module Wrappers {

  datatype Option<+T> = None | Some(value: T)

  datatype Result<+T, +E> = Ok(value: T) | Err(error: E)
}
