/** Optional values: a pandas cell that may hold NaN/None. */
module Wrappers {
  datatype Option<+T> = None | Some(value: T)
}
