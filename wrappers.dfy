/** The optional value the scraper writes as `None` or a value. */
module Wrappers {
  datatype Option<T> = None | Some(value: T)
}
