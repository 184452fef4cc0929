/** The Option and Result shapes the Go code's (value, ok) and (value, error) pairs become. */
module Wrappers {
  datatype Option<+T> = None | Some(value: T)

  datatype Result<+T, +E> = Ok(value: T) | Err(error: E)
}
