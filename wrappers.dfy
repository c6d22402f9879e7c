/** Optional values: an absent query parameter, a failed upstream call, a map lookup that misses. */
module Wrappers {
  datatype Option<+T> = None | Some(value: T)
}
