/** The optional value used for PHP's NULL and for absent JavaScript data. */
module Options {

  datatype Option<+T> = None | Some(value: T)
}
