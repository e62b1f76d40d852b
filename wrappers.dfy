/** Optional values: a missing JSON key, an unparsable integer, a file with nothing to download. */
module Wrappers {

  datatype Option<+T> = None | Some(value: T)
}
