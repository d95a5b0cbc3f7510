/** Optional values: Go's nil pointers and nil interfaces, and the "comma ok" lookups. */
module Wrappers {

  datatype Option<+T> = None | Some(value: T)
}
