/** JSON values as request bodies and token payloads carry them. Numbers are
    exact rationals: the binary floating point of JavaScript is not modelled. */
module Json {
  import opened Common

  datatype JsonValue =
    | JNull
    | JBool(b: bool)
    | JNum(n: real)
    | JStr(s: string)
    | JArr(elems: seq<JsonValue>)
    | JObj(fields: map<string, JsonValue>)

  /** `Number.isInteger(v)`, which `z.number().int()` checks. */
  predicate IsInteger(v: JsonValue) {
    v.JNum? && v.n.Floor as real == v.n
  }

  /** `Number.MAX_SAFE_INTEGER`, 2^53 - 1: the largest integer a double
      holds together with all its neighbours. */
  const MaxSafeInteger := 0x1F_FFFF_FFFF_FFFF

  /** An integer within the safe range of a double. */
  predicate SafeInteger(n: real) {
    n.Floor as real == n && -MaxSafeInteger <= n.Floor <= MaxSafeInteger
  }

  /** `Number.isSafeInteger(v)`, which zod 4's `.int()` checks. */
  predicate IsSafeInteger(v: JsonValue) {
    v.JNum? && SafeInteger(v.n)
  }

  /** A value whose numbers are all safe integers: JSON text carries such a
      value exactly, where a fraction such as 1/3 comes back as the nearest
      double. */
  predicate Exact(v: JsonValue) {
    match v
    case JNum(n) => SafeInteger(n)
    case JArr(es) => forall i :: 0 <= i < |es| ==> Exact(es[i])
    case JObj(fs) => forall k :: k in fs ==> Exact(fs[k])
    case _ => true
  }

  /** An object payload whose every field is exact. */
  predicate ExactFields(m: map<string, JsonValue>) {
    forall k :: k in m ==> Exact(m[k])
  }

  /** JavaScript truthiness of a value. */
  predicate Truthy(v: JsonValue) {
    match v
    case JNull => false
    case JBool(b) => b
    case JNum(n) => n != 0.0
    case JStr(s) => s != ""
    case JArr(_) => true
    case JObj(_) => true
  }

  /** `v[key]`: the property of an object, absent for anything else. */
  function Field(v: JsonValue, key: string): Option<JsonValue> {
    if v.JObj? && key in v.fields then Some(v.fields[key]) else None
  }
}
