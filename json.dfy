/**
 * The values a request body can hold once parsed from JSON, together with
 * the JavaScript operations the handlers apply to them: truthiness, property
 * access on the body, `v || ''` and the "array or empty" coercion.
 */
module Json {

  /** A parsed JSON value. `Undefined` is what reading a missing property gives. */
  datatype Value =
    | Undefined
    | Null
    | Bool(b: bool)
    | Num(n: int)
    | Str(s: string)
    | Arr(items: seq<Value>)
    | Obj(members: map<string, Value>)

  /** JavaScript truthiness: `undefined`, `null`, `false`, `0` and `''` are falsy. */
  predicate Truthy(v: Value)
  {
    match v
    case Undefined => false
    case Null => false
    case Bool(b) => b
    case Num(n) => n != 0
    case Str(s) => s != ""
    case Arr(_) => true
    case Obj(_) => true
  }

  /** A value a handler stores for an optional text field: truthy, or the empty string. */
  predicate Normalised(v: Value)
  {
    Truthy(v) || v == Str("")
  }

  /**
   * Property `key` of a destructured body: the member of an object, and
   * `undefined` for a missing member or a body that is not an object.
   */
  function Field(body: Value, key: string): Value
  {
    if body.Obj? && key in body.members then body.members[key] else Undefined
  }

  /** Whether `const { … } = body` succeeds: it throws on `null` and `undefined`. */
  predicate Destructurable(body: Value)
  {
    !body.Null? && !body.Undefined?
  }

  /** `v || ''`: the value itself when truthy, otherwise the empty string. */
  function OrEmpty(v: Value): (r: Value)
    ensures Normalised(r)
    ensures Truthy(v) ==> r == v
    ensures !Truthy(v) ==> r == Str("")
  {
    if Truthy(v) then v else Str("")
  }

  /**
   * `v && Array.isArray(v) ? v : []`. The truthiness test is redundant, since
   * every array is truthy: an array passes through unchanged, anything else
   * becomes the empty array.
   */
  function ArrayOrEmpty(v: Value): (r: Value)
    ensures r.Arr?
    ensures v.Arr? ==> r == v
    ensures !v.Arr? ==> r == Arr([])
  {
    if Truthy(v) && v.Arr? then v else Arr([])
  }
}
