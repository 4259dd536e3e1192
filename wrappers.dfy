/** The optional-value datatype the model uses for "absent" results and arguments. */
module Wrappers {
  datatype Option<+T> = None | Some(value: T)
}
