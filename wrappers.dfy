/** The optional-value wrapper shared by the other modules. */
module Wrappers {

  /** `None` stands for JavaScript's `undefined` result or a missing item. */
  datatype Option<+T> = None | Some(value: T) {

    /** The wrapped value, or `default` when there is none. */
    function GetOr(default: T): (r: T)
      ensures Some? ==> r == value
      ensures None? ==> r == default
    {
      match this
      case Some(v) => v
      case None => default
    }
  }
}
