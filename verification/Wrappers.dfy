/** A value that may be missing, as a null pointer or a failed search. */
module Wrappers {

  datatype Option<T> = None | Some(value: T)
}
