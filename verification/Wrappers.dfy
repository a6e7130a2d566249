module Wrappers {
  /** Stands for a pointer that may be NULL. */
  datatype Option<+T> = None | Some(value: T)
}
