/** The optional value used where the host code has `null`, `undefined` or a missing row. */
module Options {
  datatype Option<+T> = None | Some(value: T)

  /** The host language takes the empty string for absent. */
  predicate Truthy(o: Option<string>) {
    o.Some? && o.value != ""
  }
}
