/** Optional values: an absent JavaScript property or a failed table lookup is `None`. */
module Wrappers {

  datatype Option<+T> = None | Some(value: T)
}
