/** Optional values, used for the fields a request body may leave out. */
module Wrappers {

  /** A field that is either present with a value or left out (Python's `None`). */
  datatype Option<+T> = None | Some(value: T) {

    /** The value if present, otherwise `fallback`. */
    function GetOr(fallback: T): T {
      if Some? then value else fallback
    }
  }
}
