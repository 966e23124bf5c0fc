/** Optional values: a JSON field or a React state slot that may be absent (null/undefined). */
module Wrappers {

  datatype Option<+T> = None | Some(value: T)

}
