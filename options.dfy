/** The optional value that `dict.get`-style lookups and partial searches return. */
module Options {

  datatype Option<+T> = None | Some(value: T)
}
