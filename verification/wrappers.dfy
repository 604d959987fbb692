/** Optional values, used where the agent either has a value or silently has none. */
module Wrappers {

  datatype Option<+T> = None | Some(value: T)
}
