/** The absent-or-present value every probe of the host returns instead of throwing. */
module Wrappers {
  datatype Option<+T> = None | Some(value: T)
}
