/** The optional-value datatype used throughout the model, standing in for
    Python's `Optional[...]` and for "this call raised". */
module Wrappers {

  datatype Option<+T> = None | Some(value: T)
}
