/** The helper datatype that the other modules share. */
module Wrappers {

  datatype Option<+T> = None | Some(value: T) {

    /** The value, or a default if there is none. */
    function GetOr(default: T): T {
      match this
      case Some(v) => v
      case None => default
    }
  }
}
