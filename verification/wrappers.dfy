/** Option stands for a value that may be absent: an omitted query parameter,
    or a numeric parse that produced NaN. */
module Wrappers {
  datatype Option<+T> = None | Some(value: T)
}
