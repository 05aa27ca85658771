/** Optional values, shared by the modules of this model. */
module Wrappers {

  /** A value that may be absent: a C pointer that may be NULL, a lookup that may miss. */
  datatype Option<+T> = None | Some(value: T)
}
