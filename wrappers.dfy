/** Ruby's `nil` next to a value: `None` is nil, `Some(v)` is v. */
module Wrappers {

  datatype Option<+T> = None | Some(value: T)
}
