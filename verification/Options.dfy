/** A value that may be missing: Python's None, and missing keys and fields. */
module Options {

  datatype Option<T> = None | Some(value: T) {
    function GetOr(default: T): T {
      if Some? then value else default
    }
  }
}
