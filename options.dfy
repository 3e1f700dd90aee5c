/** The optional value used throughout the model.  A JavaScript `NaN` produced by
    `parseInt`/`parseFloat`, a `null` product and an empty selection are all `None`. */
module Options {

  datatype Option<+T> = None | Some(value: T)
}
