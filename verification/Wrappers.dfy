/** The optional value the source writes as a nil, a null or an undefined. */
module Wrappers {
  datatype Option<+T> = None | Some(value: T)
}
