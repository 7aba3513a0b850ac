/** Optional values: the model's stand-in for the `null` / `undefined` that the
    application's records and lookups may hold. */
module Wrappers {

  datatype Option<+T> = None | Some(value: T) {

    /** The value, or `default` when there is none (the `x ?? d` of the source). */
    function GetOr(default: T): T {
      match this
      case Some(v) => v
      case None => default
    }
  }

  /** JavaScript's `n || 0` on a nullable integer column: `null` becomes 0,
      every number (0 included) stays itself. */
  function OrZero(x: Option<int>): (r: int)
    ensures x.None? ==> r == 0
    ensures x.Some? ==> r == x.value
  {
    x.GetOr(0)
  }
}
