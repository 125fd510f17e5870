/** The optional value used where the source returns `null` or a missing result. */
module Wrappers {

  datatype Option<T> = None | Some(value: T) {

    /** The value inside Some, or `default` for None. */
    function GetOr(default: T): T {
      match this
      case Some(v) => v
      case None => default
    }
  }
}
