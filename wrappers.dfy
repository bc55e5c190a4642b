/** Optional values: `None` stands for a JavaScript value that is absent or NaN. */
module Wrappers {
  datatype Option<+T> = None | Some(value: T)
}
