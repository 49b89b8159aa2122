/** The optional value used for `currentEditId` (null or an id) and for the fields a
    partial update may or may not carry. */
module Wrappers {

  datatype Option<+T> = None | Some(value: T)
}
