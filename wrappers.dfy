/** The usual optional-value datatype: `None` stands for Java's null, for a JSON
    field that is absent, and for an exception a caller swallows. */
module Wrappers {

  datatype Option<+T> = None | Some(value: T) {

    /** The value, or `default` when there is none. */
    function GetOr(default: T): T {
      match this
      case Some(v) => v
      case None => default
    }
  }
}
