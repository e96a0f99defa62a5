/** The optional value used for a dictionary key that may be missing and for a session slot holding `None`. */
module Options {

  datatype Option<+T> = None | Some(value: T) {

    /** Python's `d.get(key, default)`: the stored value, or `default` when the key is missing. */
    function GetOr(default: T): (r: T)
      ensures Some? ==> r == value
      ensures None? ==> r == default
    {
      match this
      case Some(v) => v
      case None => default
    }
  }
}
