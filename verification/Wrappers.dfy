/** The optional value every decoder, lookup and reply in the model can return. */
module Wrappers {
  datatype Option<+T> = None | Some(value: T)
}
