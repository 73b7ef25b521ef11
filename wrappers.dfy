/** The optional-value type used for the nullable columns and lookups of the model. */
module Wrappers {

  datatype Option<+T> = None | Some(value: T)
}
