/** Optional values: a request field or header that may be absent. */
module Wrappers {

  datatype Option<+T> = None | Some(value: T)
}
