/** The optional value used wherever the source can fail or has nothing to report. */
module Wrappers {
  datatype Option<+T> = None | Some(value: T)
}
