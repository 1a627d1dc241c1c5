/** Optional values: `None` stands for a lookup that the source reports by raising. */
module Wrappers {
  datatype Option<+T> = None | Some(value: T)
}
