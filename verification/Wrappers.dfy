/** An optional value: what the source writes as a value or undefined (or null). */
module Wrappers {
  datatype Option<+T> = None | Some(value: T)
}
