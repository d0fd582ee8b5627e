/** Optional values: JavaScript's `undefined`/`null` next to a present value. */
module Wrappers {
  datatype Option<+T> = None | Some(value: T)

  /** A string value that JavaScript treats as truthy: present and non-empty. */
  predicate Truthy(s: Option<string>) {
    s.Some? && s.value != ""
  }
}
