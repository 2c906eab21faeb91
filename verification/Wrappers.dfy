/** The Some/None datatype used for C pointers that may be NULL and for descriptor slots that may be unused. */
module Wrappers {
  datatype Option<+T> = None | Some(value: T)
}
