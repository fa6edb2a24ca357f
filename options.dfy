/** The optional value used for "may be absent" throughout the model
    (a `File | null` in the client, a missing form key on the server). */
module Options {

  datatype Option<+T> = None | Some(value: T)
}
