/** Success/failure carriers standing in for Rust's `Option` and `CargoResult`. */
module Wrappers {
  datatype Option<+T> = None | Some(value: T)

  datatype Result<+R, +E> = Success(value: R) | Failure(error: E)
}
