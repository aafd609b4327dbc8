/// The optional value used for "a file was selected", "the parse succeeded"
/// and "a trailing fence was found".
module Options {
  datatype Option<T> = None | Some(value: T)
}
