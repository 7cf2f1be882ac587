/** Optional values: a nullable pointer or an absent map entry of the source. */
module Wrappers {

  datatype Option<+T> = None | Some(value: T)
}
