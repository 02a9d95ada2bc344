/** A value that may be missing: a session entry that was never set, a
    database column holding NULL, a lookup that matched nothing. */
module Wrappers {
  datatype Option<T> = None | Some(value: T)
}
