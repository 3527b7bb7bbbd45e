/** Optional values: a CSV cell that pandas reads as NaN, a file not yet loaded. */
module Wrappers {

  datatype Option<+T> = None | Some(value: T)
}
