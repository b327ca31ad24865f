/** Optional values and the typed failures of the service layer. */
module Outcome {

  /** A value that may be absent (a Java reference that may be null). */
  datatype Option<+T> = None | Some(value: T) {
    function GetOr(default: T): T {
      match this
      case Some(v) => v
      case None => default
    }
  }

  /**
   * The exceptions the service layer raises. `NullPointer` stands for the
   * NullPointerException thrown where the code dereferences a reference that
   * can be null without checking it first.
   */
  datatype Error =
    | NoSuchTask
    | NoSuchTaskReport
    | NoSuchStepReport
    | AlreadySuchTask
    | NullPointer

  /** The outcome of a service call: its return value or the exception it throws. */
  datatype Result<+T> = Ok(value: T) | Err(error: Error)
}
