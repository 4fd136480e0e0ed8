/** Optional values: the published output before any code was accepted, and
    the outcome of one recognition pass (text, or a caught failure). */
module Wrappers {
  datatype Option<+T> = None | Some(value: T)
}
