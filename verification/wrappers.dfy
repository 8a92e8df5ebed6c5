/** The optional value used throughout for JavaScript's `undefined`. */
module Wrappers {

  /** `None` stands for `undefined` (a missing property, a failed lookup). */
  datatype Option<+T> = None | Some(value: T) {

    /** The value, or `default` when there is none. */
    function GetOr(default: T): (r: T)
      ensures Some? ==> r == value
      ensures None? ==> r == default
    {
      match this
      case Some(v) => v
      case None => default
    }
  }
}
