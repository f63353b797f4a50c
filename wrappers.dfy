/** An optional value: a possibly missing list, a validation verdict, an optional mail line. */
module Wrappers {

  datatype Option<+T> = None | Some(value: T)
}
