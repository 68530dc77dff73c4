/** The one failure-free wrapper the models share. */
module Wrappers {
  datatype Option<+T> = None | Some(value: T)
}
