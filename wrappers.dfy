/** Stock failure-carrying datatypes shared by the model. */
module Wrappers {

  /** A value that may be absent: JavaScript's `null` / `undefined`. */
  datatype Option<+T> = None | Some(value: T)

  /** The outcome of an operation that may fail with a message. */
  datatype Result<+T> = Ok(value: T) | Err(message: string)

  /** JavaScript truthiness of a string-or-null: `null` and `""` are falsy. */
  predicate Truthy(s: Option<string>) {
    s.Some? && s.value != ""
  }
}
