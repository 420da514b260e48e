/** A value that may be missing, where the source uses None. */
module Wrappers {

  datatype Option<+T> = None | Some(value: T)
}
