/** A value that may be missing: pandas' NaN in a column, or a regular expression that did not match. */
module Options {

  datatype Option<+T> = None | Some(value: T)
}
