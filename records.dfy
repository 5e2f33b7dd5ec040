/**
 * Station records as the scripts hold them: JSON objects read into Python
 * dicts or JavaScript objects. A record maps a field name to a JSON scalar.
 */
module Records {
  import opened Common

  /** A JSON scalar: `null`, a boolean, a number or a string. */
  datatype Value = Null | Bool(b: bool) | Num(r: real) | Str(s: string)

  /** A station record: field name to value (the order of the fields is not modelled). */
  type Record = map<string, Value>

  /** Python's and JavaScript's truthiness of a scalar (they agree on these). */
  predicate Truthy(v: Value)
  {
    match v
    case Null => false
    case Bool(b) => b
    case Num(r) => r != 0.0
    case Str(s) => s != ""
  }

  /** `record.get(key)` is truthy. */
  predicate HasTruthy(r: Record, key: string)
  {
    key in r && Truthy(r[key])
  }

  /** `record.get(key, default)` for a field that holds a string when present. */
  function GetStr(r: Record, key: string, default: string): (v: string)
    requires key in r ==> r[key].Str?
    ensures key in r ==> v == r[key].s
    ensures key !in r ==> v == default
  {
    if key in r then r[key].s else default
  }

  /** The field holds a string whenever it is present. */
  predicate StrIfPresent(r: Record, key: string)
  {
    key in r ==> r[key].Str?
  }

  /** A record with a field set or overwritten. */
  function Set(r: Record, key: string, v: Value): (r': Record)
    ensures key in r' && r'[key] == v
    ensures forall k | k in r && k != key :: k in r' && r'[k] == r[k]
    ensures r'.Keys == r.Keys + {key}
  {
    r[key := v]
  }

  /** A record with the field removed (`del r[key]`). */
  function Remove(r: Record, key: string): (r': Record)
    ensures key !in r'
    ensures forall k | k in r && k != key :: k in r' && r'[k] == r[k]
    ensures r'.Keys == r.Keys - {key}
  {
    r - {key}
  }

  /** `{k: v for k, v in record.items() if v}`. */
  function DropFalsy(r: Record): (r': Record)
    ensures forall k :: k in r' <==> k in r && Truthy(r[k])
    ensures forall k | k in r' :: r'[k] == r[k]
  {
    map k | k in r && Truthy(r[k]) :: r[k]
  }
}
