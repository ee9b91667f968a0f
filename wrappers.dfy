/** Optional values: SQL NULL / Python None / JavaScript null. */
module Wrappers {

  datatype Option<+T> = None | Some(value: T)
}
