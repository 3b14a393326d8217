/** A value that may be missing: a field that a JavaScript record may lack. */
module Wrappers {

  datatype Option<+T> = None | Some(value: T) {

    /** `x || fallback` for an array-valued field: present arrays are truthy,
        even when empty. */
    function GetOr(fallback: T): T
    {
      match this
      case Some(v) => v
      case None => fallback
    }
  }
}
