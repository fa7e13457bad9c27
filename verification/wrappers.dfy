/** The optional value used wherever the project reader has "absent" or "null". */
module Wrappers {

  /** Some value, or none (a null reference, a missing element, a token that did not parse). */
  datatype Option<+T> = None | Some(value: T) {

    /** The carried value, or `default` when there is none. */
    function GetOr(default: T): T {
      match this
      case Some(v) => v
      case None => default
    }

    /** The carried value as a one-element sequence, or the empty one. */
    function ToSeq(): seq<T> {
      match this
      case Some(v) => [v]
      case None => []
    }
  }
}
