/** JavaScript's `null` as an explicit alternative.

    The date helpers return either a value or `null`; the comparisons return
    `true`, `false` or `null`. Both shapes are spelled out here so that no
    caller can forget the third case.
 */
module Nullable {

  /** A value that may be JavaScript `null`. */
  datatype Option<+T> = None | Some(value: T)

  /** The tri-state result of the comparison helpers: a boolean, or `null`
      when an operand is not recognised as a date. */
  datatype NullableBool = Null | Bool(value: bool)
}
