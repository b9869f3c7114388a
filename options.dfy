/** Kotlin's nullable values `T?`, as a datatype. */
module Options {

  datatype Option<T> = None | Some(value: T) {

    /** Kotlin's elvis operator: `this ?: default`. */
    function GetOr(default: T): T {
      match this
      case Some(v) => v
      case None => default
    }
  }
}
