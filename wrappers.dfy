/** The optional value used throughout the model: a selector read that may fail,
    a bid table that may be unreadable, the first element of a list that may be empty. */
module Wrappers {
  datatype Option<+T> = None | Some(value: T)
}
