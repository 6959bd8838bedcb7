/** Failure-carrying datatypes shared by the whole model. */
module Wrappers {

  /** A value that may be absent. */
  datatype Option<+T> = None | Some(value: T)

  /** The completion of a JavaScript expression that may throw: either it
      returns a value, or evaluation stops with a TypeError (a property read
      on null/undefined, or a call of a method the receiver does not have). */
  datatype Result<+T> = Ok(value: T) | TypeError
}
