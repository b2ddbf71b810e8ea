/**
 * JSON values as the route handlers see them after `request.json()` or
 * `response.json()`, together with the three JavaScript operations the
 * handlers apply to them: truthiness (`!x`, `x || d`), property access
 * (`v.k`) and object spread (`{...a, ...b}`).
 */
module Json {
  import opened Wrappers

  /** A parsed JSON value. Numbers are exact reals (no IEEE-754 rounding). */
  datatype Value =
    | Null
    | Bool(b: bool)
    | Num(n: real)
    | Str(s: string)
    | Arr(items: seq<Value>)
    | Obj(fields: map<string, Value>)

  /** A JSON object: key order is irrelevant to every handler, so a map. */
  type Object = map<string, Value>

  /** JavaScript truthiness of a present value: `null`, `false`, `0` and `""` are falsy. */
  predicate Truthy(v: Value) {
    match v
    case Null => false
    case Bool(b) => b
    case Num(n) => n != 0.0
    case Str(s) => s != ""
    case _ => true
  }

  /** `!x` for a field that should be a string: absent (`undefined`/`null`) or empty. */
  predicate Blank(f: Option<string>) {
    f.None? || f.value == ""
  }

  /** The three outcomes of reading `v.k` for a key that is not a built-in property. */
  datatype Access = Throws | Undefined | Defined(value: Value)

  /**
   * `v.k`: reading a property of `null` throws a TypeError, every other
   * non-object yields `undefined`, and an object yields its entry if any.
   */
  function Prop(v: Value, k: string): (a: Access)
    ensures a.Throws? <==> v == Null
    ensures a.Defined? <==> v.Obj? && k in v.fields
    ensures a.Defined? ==> a.value == v.fields[k]
  {
    match v
    case Null => Throws
    case Obj(fields) => if k in fields then Defined(fields[k]) else Undefined
    case _ => Undefined
  }

  /** `!o.k` on an object: the key is absent or holds a falsy value. */
  predicate Falsy(o: Object, k: string) {
    k !in o || !Truthy(o[k])
  }

  /** `o.k || d`: the entry when it is truthy, otherwise the default. */
  function OrDefault(o: Object, k: string, d: Value): (r: Value)
    ensures !Falsy(o, k) ==> r == o[k]
    ensures Falsy(o, k) ==> r == d
  {
    if k in o && Truthy(o[k]) then o[k] else d
  }

  /** `{...a, ...b}`: every key of either side, the rightmost value winning. */
  function Spread(a: Object, b: Object): (r: Object)
    ensures r.Keys == a.Keys + b.Keys
    ensures forall k :: k in b ==> r[k] == b[k]
    ensures forall k :: k in a && k !in b ==> r[k] == a[k]
  {
    a + b
  }

  /** The three outcomes of a route's `if (!body.k) return 400` guard. */
  datatype Guard = ReadThrows | FieldMissing | Present(obj: Object)

  /**
   * Parse the body, then require `body.k` to be truthy. `body` is None when
   * `request.json()` throws; reading `k` of `null` throws as well. Only an
   * object can hold a truthy `k`.
   */
  function RequireField(body: Option<Value>, k: string): (g: Guard)
    ensures g.ReadThrows? <==> body.None? || body == Some(Null)
    ensures g.Present? <==> body.Some? && body.value.Obj? && !Falsy(body.value.fields, k)
    ensures g.Present? ==> g.obj == body.value.fields
  {
    if body.None? then ReadThrows
    else
      match Prop(body.value, k)
      case Throws => ReadThrows
      case Undefined => FieldMissing
      case Defined(v) => if Truthy(v) then Present(body.value.fields) else FieldMissing
  }
}
