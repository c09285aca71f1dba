/** Optional values: `None` stands for Python's "nothing happened" (no binding found, an index error). */
module Wrappers {

  datatype Option<+T> = None | Some(value: T)
}
