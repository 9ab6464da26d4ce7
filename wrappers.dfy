/** Optional values: `null`/`undefined` on the JavaScript side. */
module Wrappers {

  datatype Option<+T> = None | Some(value: T)
}
