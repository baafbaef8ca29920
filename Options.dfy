/** Kotlin's nullable values (`T?`), as an explicit optional value. */
module Options {

  datatype Option<+T> = None | Some(value: T) {

    /** Kotlin's elvis operator `x ?: default`. */
    function GetOr(default: T): T {
      if Some? then value else default
    }
  }
}
