/** The optional-value datatype used throughout the model (Go's nil / ok-flag idiom). */
module Wrappers {

  datatype Option<+T> = None | Some(value: T)

}
