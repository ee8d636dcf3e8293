/** Optional values, standing in for Go's `nil`-or-value results and `(value, ok)` pairs. */
module Wrappers {
  datatype Option<+T> = None | Some(value: T)
}
