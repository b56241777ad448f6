/** Failure-free optional values, used throughout in place of `null` and `undefined`. */
module Wrappers {
  datatype Option<+T> = None | Some(value: T)
}
