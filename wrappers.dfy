/** Optional values: a fee schedule that may not have arrived yet, a day count
    that may be NaN. */
module Wrappers {
  datatype Option<+T> = None | Some(value: T)
}
