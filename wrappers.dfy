/** Optional values, for the references and lookups that may be missing. */
module Wrappers {

  datatype Option<+T> = None | Some(value: T)
}
