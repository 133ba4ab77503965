/** A value that may be absent: NULL pointers, failed look-ups, rejected input. */
module Options {
  datatype Option<+T> = None | Some(value: T)
}
