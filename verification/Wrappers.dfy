/** The option type used where the source has `null` or `undefined`, and a minimum. */
module Wrappers {
  datatype Option<+T> = None | Some(value: T) {
    function GetOr(default: T): T {
      match this
      case Some(v) => v
      case None => default
    }
  }

  function Min(a: nat, b: nat): nat { if a < b then a else b }
}
