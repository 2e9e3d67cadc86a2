/** The optional-value type the model uses for "may be absent" results:
    a lookup that finds nothing, an id line that does not parse, a
    persisted file that cannot be read. */
module Options {

  datatype Option<+T> = None | Some(value: T)

}
