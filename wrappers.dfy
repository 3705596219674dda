/** The optional value used throughout the engine (Effect's `Option`). */
module Wrappers {

  datatype Option<+T> = None | Some(value: T)
}
