/** The optional value used across the model: `None` for an absent value, `Some(v)` for a present one. */
module Wrappers {
  datatype Option<+T> = None | Some(value: T)
}
