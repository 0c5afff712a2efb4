/** A possibly missing value: Java's nullable reference. */
module Maybe {
  datatype Option<T> = None | Some(value: T)
}
