/** Values that JavaScript may leave absent, and calls that may throw. */
module Wrappers {

  /** A field or a fetch result that may be missing (`undefined`, or the
      `false` a failed request is turned into). */
  datatype Option<+T> = None | Some(value: T)

  /** The end of a call that may raise an exception: it either returns a
      value or throws (a `TypeError` from a missing field, here). */
  datatype Outcome<+T> = Returned(value: T) | Threw
}
