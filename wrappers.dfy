/** Optional values, used for "may be absent" results (a missing file, a URL that could not be resolved). */
module Wrappers {

  datatype Option<+T> = None | Some(value: T)
}
