/** Optional values: a JavaScript `undefined`, a missing file or a thrown TypeError. */
module Wrappers {
  datatype Option<+T> = None | Some(value: T)
}
