/** Optional values: `None` stands for JavaScript's `undefined` (and, for
    numbers, for any result that is not a finite number). */
module Wrappers {

  datatype Option<+T> = None | Some(value: T) {

    function GetOr(default: T): T {
      match this
      case Some(v) => v
      case None => default
    }
  }
}
