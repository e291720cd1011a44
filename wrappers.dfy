/** Optional values: JavaScript's `undefined` / `null` results and optional fields. */
module Wrappers {

  datatype Option<+T> = None | Some(value: T)
}
