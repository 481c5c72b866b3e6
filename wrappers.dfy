/** The Option and Result datatypes shared by the other modules. */
module Wrappers {

  /** An optional value. */
  datatype Option<+T> = None | Some(value: T)

  /** The outcome of an operation that can throw: its value or the thrown message. */
  datatype Result<+R> = Success(value: R) | Failure(error: string)
}
