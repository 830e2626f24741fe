/** The optional value used for Swift's `Int?`/`String?` parameters and for
    Ruby's `nil`. */
module Wrappers {

  datatype Option<+T> = None | Some(value: T) {

    /** The wrapped value, or `default` when there is none (Swift's `??`,
        Ruby's `||` on a possibly-nil value). */
    function GetOr(default: T): T {
      match this
      case Some(v) => v
      case None => default
    }
  }
}
