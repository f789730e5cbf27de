/** Values that may be missing and calls that may fail. */
module Options {

  datatype Option<+T> = None | Some(value: T)

  datatype Outcome<+T> = Failed | Done(value: T)
}
