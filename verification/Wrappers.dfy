/** The absent-or-present value used wherever the mailbox stores NULL. */
module Wrappers {
  datatype Option<+T> = None | Some(value: T)
}
