/** Optional values: Go's nil-able `error` is modelled as Option<Error>. */
module Wrappers {
  datatype Option<+T> = None | Some(value: T)
}
