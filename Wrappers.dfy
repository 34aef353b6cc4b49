/** The Option type used for values a JSON body may or may not carry. */
module Wrappers {

  datatype Option<+T> = None | Some(value: T)
}
