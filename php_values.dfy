/**
 * The PHP values that the media model reads: decoded JSON metadata payloads,
 * Eloquent attributes and configuration entries.
 */
module PhpValues {

  /**
   * A PHP value. `Dict` is an associative array (what the `json` attribute cast
   * produces), `Object` is a `stdClass` (what `json_decode` without the
   * associative flag produces for a JSON object). Floats are not modelled.
   */
  datatype Value =
    | Null
    | Bool(b: bool)
    | Int(i: int)
    | Str(s: string)
    | List(items: seq<Value>)
    | Dict(entries: map<string, Value>)
    | Object(props: map<string, Value>)

  /** PHP truthiness of a string: only "" and "0" are false. */
  predicate StrTruthy(s: string)
  {
    s != "" && s != "0"
  }

  /** PHP truthiness (`if ($v)`): every object is true, an array is true when non-empty. */
  predicate Truthy(v: Value)
  {
    match v
    case Null => false
    case Bool(b) => b
    case Int(i) => i != 0
    case Str(s) => StrTruthy(s)
    case List(items) => items != []
    case Dict(entries) => entries != map[]
    case Object(_) => true
  }

  /**
   * `$v->key ?? null` on an object, `$v[key] ?? null` on an array: the entry
   * under a non-numeric string key, or null when `v` has none.
   */
  function Member(v: Value, key: string): Value
  {
    match v
    case Dict(m) => if key in m then m[key] else Null
    case Object(m) => if key in m then m[key] else Null
    case _ => Null
  }

  /** An attribute or configuration entry read by name; a missing one reads as null. */
  function Lookup(m: map<string, Value>, key: string): Value
  {
    if key in m then m[key] else Null
  }

  /** PHP's null-coalescing operator `v ?? default`. */
  function Coalesce(v: Value, default: Value): Value
  {
    if v != Null then v else default
  }
}
