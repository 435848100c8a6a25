// A result that may be absent: the C code's NULL pointers and "nothing found".
module Options {
  datatype Option<+T> = None | Some(value: T)
}
