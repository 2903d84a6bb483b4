/** A reference that may be null in the game. */
module Optional {
  datatype Option<T> = None | Some(value: T)
}
