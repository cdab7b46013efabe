/** Optional values, standing in for Swift's `T?`. */
module Options {

  datatype Option<T> = None | Some(value: T) {

    /** Swift's `x ?? default`. */
    function GetOr(default: T): T {
      if Some? then value else default
    }
  }

  /** A use-case call that either delivers a value or fails with an error. */
  datatype Outcome<T, E> = Succeeded(value: T) | Failed(error: E)
}
