/** The optional value used for JavaScript results that may be `undefined`
    or a non-finite number. */
module Wrappers {

  datatype Option<+T> = None | Some(value: T)
}
