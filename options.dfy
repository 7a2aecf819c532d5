/** The optional value used for every key a store record may lack. */
module Options {

  datatype Option<T> = None | Some(value: T) {

    /** Python's `d.get(key, default)`: the value if present, the default otherwise. */
    function GetOr(default: T): T {
      match this
      case Some(v) => v
      case None => default
    }
  }
}
