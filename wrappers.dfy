/** Optional values, used wherever the source tests for a missing key or `None`. */
module Wrappers {

  datatype Option<+T> = None | Some(value: T)

}
