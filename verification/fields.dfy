/** Optional JSON fields and the JavaScript `||` fallback chains built on them.
    A field that is absent from a fixture record, or present as `null`, is `None`. */
module Fields {

  /** A record field that may be missing. */
  datatype Option<+T> = None | Some(value: T)

  /** JavaScript truthiness of an optional string: absent, null and "" are falsy. */
  predicate Truthy(o: Option<string>) {
    o.Some? && o.value != ""
  }

  /** `a || b` over two optional strings: `a` when it is truthy, otherwise `b` as it stands
      (which may itself be absent or empty). */
  function Or(a: Option<string>, b: Option<string>): Option<string> {
    if Truthy(a) then a else b
  }

  /** `a || d` where the fallback `d` is a string that is always present. */
  function OrElse(a: Option<string>, d: string): string {
    if Truthy(a) then a.value else d
  }

}
