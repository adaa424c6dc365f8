/** Failure-compatible wrappers shared by the other modules. */
module Wrappers {

  /** `None` stands for Python's `None`: no value was produced. */
  datatype Option<+T> = None | Some(value: T)

  /** A Python call that either returns a value or raises an exception. */
  datatype Result<+T, +E> = Ok(value: T) | Err(error: E)
}
