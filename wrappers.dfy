/** Option stands for pandas' missing value (NaN) and for Python's None;
    Result carries either a value or the exception the source would raise. */
module Wrappers {
  datatype Option<+T> = None | Some(value: T)

  datatype Result<+T, +E> = Ok(value: T) | Err(error: E)
}
