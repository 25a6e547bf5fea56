/** Optional values: `None` stands for Python's `None` or for a step that produced nothing. */
module Wrappers {

  datatype Option<+T> = None | Some(value: T)
}
