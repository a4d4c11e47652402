/** The optional value used wherever the Rust code returns `Option<T>`. */
module Wrappers {
  datatype Option<+T> = None | Some(value: T)
}
