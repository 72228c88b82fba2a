/** Optional values: a nullable reference or an unset nullable field of the source. */
module Wrappers {

  datatype Option<+T> = None | Some(value: T)
}
