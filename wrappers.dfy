/** Optional values: the model's stand-in for Java's `null` and for calls that may throw. */
module Wrappers {

  datatype Option<+T> = None | Some(value: T)
}
