/** Optional values: the model's stand-in for `null`, `NaN` and "Invalid Date". */
module Wrappers {

  datatype Option<+T> = None | Some(value: T)
}
