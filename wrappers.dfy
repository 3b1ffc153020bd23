/** Optional values: a Java reference that may be `null`, a map lookup that may miss,
    a parse that may throw. */
module Wrappers {

  datatype Option<+T> = None | Some(value: T)
}
