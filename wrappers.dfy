/** A value that may be absent: JavaScript's `undefined` for an environment
    variable or a header, or a parse that found nothing. */
module Wrappers {

  datatype Option<+T> = None | Some(value: T)

}
