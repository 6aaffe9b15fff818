/** What every module shares. */
module Common {

  datatype Option<+T> = None | Some(value: T)
}
