/** Optional values, used where the source raises and catches an exception. */
module Wrappers {

  datatype Option<+T> = None | Some(value: T)
}
