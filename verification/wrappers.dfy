/** The optional value used wherever the TypeScript code has `null`, `undefined`
    or a `findIndex` result of -1. */
module Wrappers {

  datatype Option<+T> = None | Some(value: T)

  /** JavaScript truthiness of an optional string: absent and '' are both falsy. */
  predicate Truthy(s: Option<string>) {
    s.Some? && s.value != ""
  }
}
