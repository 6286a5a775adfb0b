/** Failure-carrying values shared by the whole model: the source signals
    failure with exceptions, which the model returns as values. */
module Wrappers {

  datatype Option<+T> = None | Some(value: T)

  /** The .NET exceptions the modelled code can raise. */
  datatype Error =
    | KeyNotFound          // Dictionary indexer on an absent key
    | InvalidCast          // a failing reference cast
    | ArgumentOutOfRange   // a switch default arm, or an argument outside its range
    | DivideByZero         // integer division by zero
    | Overflow             // int.MinValue / -1

  datatype Result<+T> = Success(value: T) | Failure(error: Error)
}
