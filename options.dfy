/// The optional value used wherever the page may lack something: a JSON
/// field, a DOM element, an attribute.
module Options {
  datatype Option<T> = None | Some(value: T)
}
