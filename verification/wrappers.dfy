/** The optional-value datatype used for the foreign parser and for
    operations that may throw. */
module Wrappers {

  datatype Option<+T> = None | Some(value: T)
}
