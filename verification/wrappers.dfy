/** The absent-or-present value the backing cache's `get` returns
    (`undefined` for a missing key). */
module Wrappers {

  datatype Option<+T> = None | Some(value: T)
}
