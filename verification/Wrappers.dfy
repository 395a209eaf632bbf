/** Values that may be missing, results that may be errors, and calls that may not be answered. */
module Wrappers {

  datatype Option<+T> = None | Some(value: T)

  datatype Result<+T, +E> = Ok(value: T) | Err(error: E)

  /** A call to a node or a provider either answers or throws. */
  datatype Rpc<+T> = Got(value: T) | Unavailable
}
