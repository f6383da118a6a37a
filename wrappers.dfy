/** The optional value returned where the engine may have no answer
    (no open row in a column, no column at a leaf of the search). */
module Wrappers {
  datatype Option<+T> = None | Some(value: T)
}
