/** The optional value used for `dirs::home_dir()` and for `expand_tilde`'s result. */
module Wrappers {

  datatype Option<T> = None | Some(value: T)
}
