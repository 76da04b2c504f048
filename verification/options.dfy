/** An optional value, used where the program's lookup or parse can fail. */
module Options {

  datatype Option<+T> = None | Some(value: T)
}
