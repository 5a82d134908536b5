/** JavaScript values as the application sees them: a value that may be
    `undefined`/`null`, and the truthiness test the handlers use (`!x`). */
module Js {

  /** A value that may be absent (`undefined` or `null` in the source). */
  datatype Option<+T> = None | Some(value: T) {

    /** The value, or `default` when absent (the source's `x || default`
        for values that are never falsy when present). */
    function GetOr(default: T): T {
      match this
      case Some(v) => v
      case None => default
    }
  }

  /** JavaScript truthiness of a string field that may be missing:
      `undefined`, `null` and `""` are falsy, every other string is truthy. */
  predicate Truthy(v: Option<string>) {
    v.Some? && v.value != ""
  }

  /** The source's `v || null` for a string field: falsy collapses to null. */
  function OrNull(v: Option<string>): (r: Option<string>)
    ensures r.Some? <==> Truthy(v)
    ensures r.Some? ==> r == v
  {
    if Truthy(v) then v else None
  }

  /** The string a truthy field holds, and "" otherwise. */
  function StrOr(v: Option<string>, default: string): string {
    if Truthy(v) then v.value else default
  }
}
