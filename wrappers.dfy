/** An optional value: the model's stand-in for Python's "raises" or "is None". */
module Wrappers {

  datatype Option<+T> = None | Some(value: T)
}
