/** Optional values: the parse result of an editable table cell, and the
    outcome of reading one stored record. */
module Wrappers {

  datatype Option<+T> = None | Some(value: T)
}
