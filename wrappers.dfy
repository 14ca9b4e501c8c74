/** Option, for the values the JavaScript code treats as missing. */
module Wrappers {

  datatype Option<+T> = None | Some(value: T)
}
