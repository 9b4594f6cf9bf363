/** Optional values, used for a value that JavaScript may leave as NaN. */
module Wrappers {

  datatype Option<+T> = None | Some(value: T)

}
