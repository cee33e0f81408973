/** The optional value used wherever the JavaScript source has `undefined`/`null`. */
module Wrappers {
  datatype Option<+T> = None | Some(value: T)

  /** JavaScript truthiness of an optional id: present and not the empty string. */
  predicate Present(id: Option<string>) {
    id.Some? && id.value != ""
  }
}
