/** Optional values, used for "no column matched" and for sheet lookups that miss. */
module Wrappers {

  datatype Option<+T> = None | Some(value: T)
}
