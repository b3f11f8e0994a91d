/** A value that may be missing: a NULL pointer, or a function that found nothing. */
module Options {
  datatype Option<T> = None | Some(value: T)
}
