/** Result types shared by every module: a C++ exception is an explicit failure value. */
module Wrappers {

  datatype Option<+T> = None | Some(value: T)

  /** A thrown exception is `Thrown`; a normal return is `Returned`. */
  datatype Result<+T> = Returned(value: T) | Thrown

  /** How a step of an event loop ends: it goes on, it breaks out of the loop, or an exception leaves it. */
  datatype Outcome = Continue | Broke | Threw
}
