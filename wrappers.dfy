/** The optional-value datatype used for components that an entity may or may not carry. */
module Wrappers {

  datatype Option<+T> = None | Some(value: T)
}
