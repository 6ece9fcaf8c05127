/** The optional value shared by the calculator (no bet for invalid input) and
    the hash reader (a field that is absent, JavaScript's `undefined`). */
module Wrappers {

  datatype Option<+T> = None | Some(value: T)

}
