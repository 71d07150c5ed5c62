/// The optional value used where the program returns `nullptr`.
module Wrappers {
  datatype Option<T> = None | Some(value: T)
}
