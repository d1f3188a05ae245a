/** Optional values and results with an error, used for JavaScript's
    `undefined` and for thrown errors. */
module Results {

  datatype Option<+T> = None | Some(value: T)

  datatype Result<+T, +E> = Ok(value: T) | Err(error: E)

  /** JavaScript truthiness of a string that may be undefined. */
  predicate Truthy(v: Option<string>) {
    v.Some? && v.value != ""
  }

  /** `v || ''` and `v ?? ''` coincide on strings: an unset value reads as empty. */
  function OrEmpty(v: Option<string>): string {
    if v.Some? then v.value else ""
  }
}
