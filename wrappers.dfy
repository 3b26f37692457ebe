/** Go's nilable values: `nil` is `None`, a non-nil value `x` is `Some(x)`. */
module Wrappers {

  datatype Option<+T> = None | Some(value: T)
}
