/** A value that may be absent: a nil pointer, a missing key, an unset field. */
module Options {
  datatype Option<+T> = None | Some(value: T) {
    function GetOr(default_: T): T {
      if Some? then value else default_
    }
  }
}
