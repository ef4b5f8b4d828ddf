/** The optional value returned by the document finder: a row, or nothing (Java's null cursor). */
module Wrappers {

  datatype Option<+T> = None | Some(value: T)
}
