/** Optional values: the Python `None` a lookup or a parse may produce. */
module Wrappers {

  datatype Option<+T> = None | Some(value: T)
}
