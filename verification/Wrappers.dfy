// The one small datatype every component shares.
module Wrappers {
  datatype Option<+T> = None | Some(value: T)
}
