/**
 * What the controllers see of an HTTP exchange: the values of a query string or a
 * JSON body, with JavaScript's truthiness and number parsing, and the status code
 * with the `data` payload of a reply.
 */
module Http {
  import opened Wrappers

  /**
   * A request value: absent, a JSON number, or text together with what `parseFloat`
   * makes of it.
   */
  datatype Field = Missing | Num(n: real) | Text(s: string, parsed: real)

  /** JavaScript truthiness: `undefined`, `0` and `""` are falsy. */
  predicate FieldTruthy(f: Field) {
    match f
    case Missing => false
    case Num(n) => n != 0.0
    case Text(s, _) => s != ""
  }

  /** `parseFloat(f)` for a present value (a number parses to itself). */
  function ParseFloat(f: Field): real
    requires f != Missing
  {
    match f
    case Num(n) => n
    case Text(_, p) => p
  }

  /** A present value as a number, an absent one as none. */
  function FieldValue(f: Field): (r: Option<real>)
    ensures r.None? <==> f == Missing
    ensures r.Some? ==> r.value == ParseFloat(f)
  {
    if f == Missing then None else Some(ParseFloat(f))
  }

  /** `f || d`: the value when it is truthy, the default otherwise. */
  function FloatOr(f: Field, d: real): (r: real)
    ensures FieldTruthy(f) ==> r == ParseFloat(f)
    ensures !FieldTruthy(f) ==> r == d
  {
    if FieldTruthy(f) then ParseFloat(f) else d
  }

  const OK: int := 200
  const CREATED: int := 201
  const BAD_REQUEST: int := 400
  const UNAUTHORIZED: int := 401
  const FORBIDDEN: int := 403
  const NOT_FOUND: int := 404
  const SERVER_ERROR: int := 500

  /** A reply: its status code and, on success, its `data`. */
  datatype Reply<+T> = Reply(code: int, data: Option<T>)

  function Fail<T>(code: int): Reply<T> {
    Reply(code, None)
  }
}
