/** The success/failure result used for operations whose input may be rejected. */
module Wrappers {

  datatype Result<+T, +E> = Ok(value: T) | Err(error: E)

}
