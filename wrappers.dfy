/** The optional-value type shared by the models of the three trees. */
module Wrappers {

  datatype Option<+T> = None | Some(value: T)
}
