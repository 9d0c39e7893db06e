/** Failure-carrying datatypes shared by the model. */
module Wrappers {

  /** A value that may be absent; `None` stands for a Java `null` reference. */
  datatype Option<+T> = None | Some(value: T)

  /** The outcome of an operation that can throw `IllegalArgumentException`:
      either a value, or the error kind (the exception's message is not modelled). */
  datatype Result<+T> = Ok(value: T) | InvalidArgument
}
