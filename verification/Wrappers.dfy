/** Shared result types. */
module Wrappers {

  datatype Option<+T> = None | Some(value: T)

  /** A Python call either returns a value or raises. */
  datatype Result<+T, +E> = Ok(value: T) | Raise(error: E)
}
