/** Optional values and results with an error, shared by every module of the model. */
module Wrappers {

  /** A value that may be absent: the model of a nullable reference or a Python `None`. */
  datatype Option<+T> = None | Some(value: T)

  /** The outcome of an operation that may raise: `Err` stands for the exception the source throws. */
  datatype Result<+T, +E> = Ok(value: T) | Err(error: E)
}
