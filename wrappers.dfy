/** Small shared datatypes. */
module Wrappers {

  /** Ruby's `nil` versus a present value. */
  datatype Option<T> = None | Some(value: T)
}
