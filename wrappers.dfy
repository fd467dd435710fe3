/** Optional values and results with an error, shared by the modules below. */
module Wrappers {

  /** A value that may be absent; None stands for Java's null. */
  datatype Option<+T> = None | Some(value: T)

  /** The outcome of an operation that may throw: Err carries what would be thrown. */
  datatype Result<+T, +E> = Ok(value: T) | Err(error: E)
}
