/** Optional values: a JavaScript `undefined`/`null` or a missing row. */
module Wrappers {
  datatype Option<+T> = None | Some(value: T)
}
