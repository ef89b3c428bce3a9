/** Optional values: a request parameter or a database lookup that may be absent. */
module Wrappers {
  datatype Option<+T> = None | Some(value: T)
}
