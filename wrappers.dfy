/** The optional-value datatype used where the monitored program returns `None`. */
module Wrappers {

  datatype Option<+T> = None | Some(value: T)
}
