/** The optional value that Python writes as `None` or a value. */
module Wrappers {
  datatype Option<+T> = None | Some(value: T)

  /** Python truthiness of an optional string: neither `None` nor empty. */
  predicate IsSet(s: Option<string>) {
    s.Some? && s.value != ""
  }
}
