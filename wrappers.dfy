/** Result, for operations that can fail. */
module Wrappers {

  datatype Result<+T, +E> = Ok(value: T) | Err(error: E)
}
