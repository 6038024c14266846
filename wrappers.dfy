/** The optional-value type used for absent attributes and failed queries. */
module Wrappers {

  datatype Option<+T> = None | Some(value: T)

}
