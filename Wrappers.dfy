/** The optional value used for the source's nullable names (`char?` and a
    `string` that may be null). */
module Wrappers {
  datatype Option<+T> = None | Some(value: T)
}
