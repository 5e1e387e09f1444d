/** The optional value shared by the cache modules. */
module Wrappers {

  datatype Option<T> = None | Some(value: T)
}
