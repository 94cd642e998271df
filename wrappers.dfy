/** Optional values, used for Go's nil-or-error returns and for optional matches. */
module Wrappers {

  datatype Option<+T> = None | Some(value: T)
}
