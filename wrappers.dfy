/** The optional value returned by the dictionary-line matcher. */
module Wrappers {

  datatype Option<+T> = None | Some(value: T)
}
