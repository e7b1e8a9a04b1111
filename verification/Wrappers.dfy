// What several of the models wrap values in.
module Wrappers {

  datatype Option<+T> = None | Some(value: T)
}
