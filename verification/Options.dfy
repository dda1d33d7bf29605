/** Results that may be missing: the kernel's NULL and the failing searches. */
module Options {
  datatype Option<T> = None | Some(value: T)
}
