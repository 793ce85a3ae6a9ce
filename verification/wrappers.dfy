/** Optional values: a database lookup that may find nothing, or a caller
    identity that may be absent. */
module Wrappers {

  datatype Option<+T> = None | Some(value: T)
}
