/** Small value types shared by every module of the model. */
module Basics {

  /** An optional value (a TypeScript `T | undefined`). */
  datatype Option<+T> = None | Some(value: T)

  /** Why an operation of the record store gave up. */
  datatype Failure =
    | Unparsable   // the stored text of a slot is not valid JSON: `JSON.parse` throws
    | QuotaExceeded // the browser refused to store the text

  /** The outcome of an operation that may throw. */
  datatype Result<+T> = Ok(value: T) | Err(failure: Failure)

  /**
   * The text held under one `localStorage` key, seen through `JSON.parse`.
   * `Empty` is a missing key or the empty string (both falsy in the source),
   * `Json(v)` is text that parses to `v`, `Garbled` is text that does not parse.
   */
  datatype Cell<T> = Empty | Json(value: T) | Garbled

  /** `JSON.parse(localStorage.getItem(k) || '[]')` for a collection slot. */
  function ParseList<T>(c: Cell<seq<T>>): (r: Result<seq<T>>)
    ensures r.Err? <==> c.Garbled?
    ensures c.Empty? ==> r == Ok([])
    ensures c.Json? ==> r == Ok(c.value)
  {
    match c
    case Empty => Ok([])
    case Json(v) => Ok(v)
    case Garbled => Err(Unparsable)
  }
}
