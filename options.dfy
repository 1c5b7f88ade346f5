/** The usual optional value, for "no key held" and similar absent answers. */
module Options {
  datatype Option<T> = None | Some(value: T)
}
