/** JavaScript values as the registration form sees them.

    A field of the form's store is either absent from the object (`undefined`)
    or holds the string the input element reported. `Option<string>` models
    exactly that; `Truthy` is JavaScript's truthiness restricted to it.
 */
module Values {

  /** An absent (`undefined` or `null`) or present value. */
  datatype Option<+T> = None | Some(value: T)

  /** `!!v` for a value that is absent or a string: only a non-empty string is truthy. */
  predicate Truthy(v: Option<string>) {
    v.Some? && v.value != ""
  }
}
