/** The optional value of Swift (`T?`), used for every field the media library may leave nil. */
module Wrappers {
  datatype Option<+T> = None | Some(value: T)
}
