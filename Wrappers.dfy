/** Optional values: a JavaScript value that may be `undefined`, or a lookup that may miss. */
module Wrappers {

  datatype Option<+T> = None | Some(value: T)
}
