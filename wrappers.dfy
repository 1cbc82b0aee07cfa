/** The usual optional-value wrapper, used for Go's (value, error) pairs. */
module Wrappers {
  datatype Option<+T> = None | Some(value: T) {
    /** The value, or a fallback when there is none. */
    function GetOr(fallback: T): T
    {
      match this
      case Some(v) => v
      case None => fallback
    }
  }
}
