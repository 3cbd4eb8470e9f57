/** Option and exception-outcome wrappers shared by the whole model. */
module Wrappers {

  /** `None` stands for a C# `null` or for an IEEE NaN/infinity that the model does not compute. */
  datatype Option<+T> = None | Some(value: T)

  /** The outcome of an operation that may raise a .NET exception (an index or argument out of range). */
  datatype Result<+T> = Ok(value: T) | Throws
}
