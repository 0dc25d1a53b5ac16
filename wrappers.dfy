/** Option and Result, the two failure-carrying datatypes used throughout the model. */
module Wrappers {

  datatype Option<+T> = None | Some(value: T)

  /** `Failure` stands for a Python exception that escapes the modelled code. */
  datatype Result<+T> = Success(value: T) | Failure
}
