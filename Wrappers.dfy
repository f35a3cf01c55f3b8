/** The optional value used for every step that can fail or every field that can be absent. */
module Wrappers {
  datatype Option<+T> = None | Some(value: T)
}
