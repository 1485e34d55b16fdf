/** The optional-value datatype used wherever the source reads `undefined`,
    a missing row or a value that may be absent. */
module Wrappers {

  datatype Option<+T> = None | Some(value: T)
}
