/** An optional value, for what the code expresses by null pointers and thrown exceptions. */
module Wrappers {

  datatype Option<T> = None | Some(value: T)
}
