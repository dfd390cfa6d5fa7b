/** A value that may be absent: a zero time, a NULL number, a key not in a map. */
module Options {

  datatype Option<+T> = None | Some(value: T)
}
