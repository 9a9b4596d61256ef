/** Shared value types and set helpers. */
module Wrappers {

  /** A result that may be absent: the source's null pointers, -1 returns and panics. */
  datatype Option<+T> = None | Some(value: T)

  /** Some element of a nonempty set. */
  ghost function Pick<T>(s: set<T>): (x: T)
    requires s != {}
    ensures x in s
  {
    var x :| x in s; x
  }
}
