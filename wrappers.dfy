/** Small value wrappers shared by the modules of the model. */
module Wrappers {

  /** A value that may be absent (`null` / `undefined` in the source). */
  datatype Option<+T> = None | Some(value: T) {
    function GetOr(default: T): T {
      match this
      case Some(v) => v
      case None => default
    }
  }

  /** The outcome of an awaited call: it either returned a value or threw an error with a message. */
  datatype Outcome<+T> = Returned(value: T) | Threw(message: string)
}
