/** Failure-compatible results shared by the models: a missing value and a thrown exception. */
module Wrappers {

  datatype Option<+T> = None | Some(value: T)

  /** `Thrown` stands for the exception that ends the call. */
  datatype Outcome<+T> = Returned(value: T) | Thrown
}
