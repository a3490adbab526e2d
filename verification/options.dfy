/** Optional values, and Python's truthiness test for an optional string
    (`None` and `""` are both falsy). */
module Options {

  datatype Option<+T> = None | Some(value: T)

  /** `bool(x)` for a value that is either `None` or a `str`. */
  predicate Truthy(o: Option<string>) {
    o.Some? && o.value != []
  }

  /** Python's `a or b` on two optional strings: `a` when it is truthy, otherwise `b`
      (even when `b` is itself `None`). */
  function Or(a: Option<string>, b: Option<string>): (r: Option<string>)
    ensures Truthy(a) ==> r == a
    ensures !Truthy(a) ==> r == b
    ensures Truthy(r) <==> Truthy(a) || Truthy(b)
  {
    if Truthy(a) then a else b
  }
}
