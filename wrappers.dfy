/** Option, for lookups that may find nothing (`find` returning `undefined`,
    `findIndex` returning -1, a dialog that was cancelled). */
module Wrappers {

  datatype Option<+T> = None | Some(value: T) {

    /** The wrapped value, or `default` when there is none (JavaScript's `x || default`). */
    function GetOr(default: T): T {
      match this
      case Some(v) => v
      case None => default
    }
  }
}
