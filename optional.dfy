/** The optional value used where the JavaScript code may produce `undefined`, `null` or a non-finite number. */
module Optional {
  datatype Option<+T> = None | Some(value: T)
}
