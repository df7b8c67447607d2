/** Optional values: `None` stands for Python's `None` or for "no value could be produced". */
module Wrappers {
  datatype Option<T> = None | Some(value: T)
}
