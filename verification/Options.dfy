/** A value that may be missing. */
module Options {

  datatype Option<+T> = None | Some(value: T) {
    function GetOr(default: T): T {
      match this
      case Some(v) => v
      case None => default
    }

    /** SQL's COALESCE(this, other). */
    function Or(other: Option<T>): Option<T> {
      if Some? then this else other
    }
  }
}
