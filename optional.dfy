/** A value that may be absent: what `loadUsers` yields when the slot is empty (`null`). */
module Optional {
  datatype Option<T> = None | Some(value: T)
}
