/** The optional value the suffix scan returns: the rule it found, or nothing. */
module Wrappers {

  datatype Option<+T> = None | Some(value: T)
}
