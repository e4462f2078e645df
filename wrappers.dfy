/** Optional values, used for JavaScript results that may be `NaN` or `-1`. */
module Wrappers {

  datatype Option<+T> = None | Some(value: T)
}
