/** Option and outcome values shared by every module. */
module Wrappers {

  datatype Option<+T> = None | Some(value: T) {
    /** Returns the encapsulated value, or `default` when there is none. */
    function GetOr(default: T): T {
      match this
      case Some(v) => v
      case None => default
    }
  }
}
