/** JavaScript's `undefined`/`null` next to a present value. */
module Optional {
  datatype Option<T> = None | Some(value: T)
}
