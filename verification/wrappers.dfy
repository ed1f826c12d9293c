/** Python's `None`-or-value, as used by `dict.get` and optional request fields. */
module Wrappers {
  datatype Option<+T> = None | Some(value: T)
}
