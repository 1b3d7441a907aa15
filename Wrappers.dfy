/** The optional-value type used for the tracer's nullable arguments. */
module Wrappers {

  datatype Option<+T> = None | Some(value: T)
}
