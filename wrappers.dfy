/** Result: a value, or the exception the driver lets through, as a value. */
module Wrappers {

  datatype Result<+T, +E> = Ok(value: T) | Err(error: E)
}
