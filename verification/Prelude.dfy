// Small datatypes shared by every module of the project.
module Prelude {
  datatype Option<+T> = None | Some(value: T)

  datatype Result<+T, +E> = Ok(value: T) | Err(error: E)

  // One byte of a stream or of a frame.
  newtype byte = x: int | 0 <= x < 256
}
