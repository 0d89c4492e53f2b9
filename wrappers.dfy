/** The optional-value datatype the parser returns: `None` for a string that is
    not a hostname, `Some(id)` for one that is. */
module Wrappers {

  datatype Option<+T> = None | Some(value: T)
}
