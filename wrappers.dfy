/** The optional value used where the source may find nothing (a missing
    dictionary key, a parser that raised). */
module Wrappers {

  datatype Option<+T> = None | Some(value: T) {

    /** The value if there is one, otherwise the given default. */
    function GetOr(default: T): T {
      match this
      case Some(v) => v
      case None => default
    }
  }
}
