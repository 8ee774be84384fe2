/** An optional value, for the source's nil pointers, zero times and comma-ok results. */
module Wrappers {
  datatype Option<+T> = None | Some(value: T)
}
