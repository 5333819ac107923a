/** A value that may be absent, shared by the runtime and the analyser models. */
module Wrappers {
  datatype Option<+T> = None | Some(value: T)
}
