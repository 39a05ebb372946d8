/** The optional value the modelled code returns where Rust returns `Option<T>`. */
module Wrappers {

  datatype Option<+T> = None | Some(value: T)
}
