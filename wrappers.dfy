/** Optional values: a form entry that FormData may not hold, a section without an id. */
module Wrappers {

  datatype Option<T> = None | Some(value: T)
}
