/** Optional values, used for request fields that may be absent
    (an unauthenticated caller, a missing upload, an omitted body field). */
module Wrappers {

  datatype Option<+T> = None | Some(value: T)
}
