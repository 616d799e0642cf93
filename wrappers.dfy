/** Failure-carrying values shared by the store and the progression engine. */
module Wrappers {

  /** Absence or presence of a value (an index found by a search, a level dispatched). */
  datatype Option<+T> = None | Some(value: T)

  /** The two exception kinds the engine throws on a bad argument. */
  datatype Error =
    | TypeError(message: string)
    | RangeError(message: string)

  /** Outcome of an operation that returns nothing on success. */
  datatype Outcome = Pass | Fail(error: Error)

  /** Outcome of an operation that returns a value on success. */
  datatype Result<+T> = Ok(value: T) | Err(error: Error)
}
