/** A value that may be missing. */
module Optional {
  datatype Maybe<T> = Nothing | Just(value: T)
}
