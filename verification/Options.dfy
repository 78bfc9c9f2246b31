/**
 A value that can be missing.
 */
module Options {

  datatype Option<T> = None | Some(value: T)
}
