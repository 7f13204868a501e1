/** Optional values: a DOM query that may find nothing, a parse that may give NaN. */
module Wrappers {
  datatype Option<+T> = None | Some(value: T)
}
