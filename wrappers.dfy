/** Optional values: a missing storage entry, or no task being edited. */
module Wrappers {
  datatype Option<+T> = None | Some(value: T)
}
