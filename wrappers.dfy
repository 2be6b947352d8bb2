/** Optional values, standing for Python's `None` and for a missing dictionary entry. */
module Wrappers {

  datatype Option<+T> = None | Some(value: T)
}
