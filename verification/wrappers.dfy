/** The optional value used for the outcome of a machine-learning call:
    `None` stands for the failure callback, `Some(v)` for the success
    callback carrying `v`. */
module Wrappers {

  datatype Option<+T> = None | Some(value: T) {

    /** The carried value, or `default` when there is none. */
    function GetOr(default: T): T {
      match this
      case Some(v) => v
      case None => default
    }
  }
}
