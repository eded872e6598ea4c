/** Values the bot reads from outside: optional strings (form fields,
    environment variables) and the JavaScript truthiness test it applies
    to them. */
module Values {

  /** A value that may be absent (`undefined` in JavaScript). */
  datatype Option<T> = None | Some(value: T)

  /** `!!v` for a string that may be `undefined`: only a present,
      non-empty string is truthy. */
  predicate Truthy(v: Option<string>)
  {
    v.Some? && v.value != ""
  }
}
