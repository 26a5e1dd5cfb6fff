/** The Option datatype every other module uses for Go's nil pointers, zero times and "ok" results. */
module Options {
  datatype Option<+T> = None | Some(value: T)
}
