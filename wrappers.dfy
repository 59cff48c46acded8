/** Optional values: a setting whose flag may be absent, a file name the
    model may be unable to format. */
module Wrappers {

  datatype Option<+T> = None | Some(value: T)
}
