/** Optional values, shared by the models of the individual components. */
module Options {

  datatype Option<+T> = None | Some(value: T)
}
