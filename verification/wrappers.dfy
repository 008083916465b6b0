/** The Some/None datatype used for values that may be absent: a failed parse,
    a missing dictionary key, a line that produces no output. */
module Wrappers {

  datatype Option<+T> = None | Some(value: T) {

    /** The value in Some, or a default for None (Python's dict.get with a default). */
    function GetOr(default: T): T {
      match this
      case Some(v) => v
      case None => default
    }
  }
}
