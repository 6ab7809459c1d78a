/** Types shared by every module. */
module Wrappers {

  /** A column that may be null, a lookup that may miss, or a call that may be refused. */
  datatype Option<+T> = None | Some(value: T)
}
