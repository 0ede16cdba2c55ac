/** JSON values as the store sees them (the serde_json `Value` the Rust code passes around).
    Numbers are split into integers (`JNum`) and everything else (`JFloat`, kept opaque). */
module Json {

  import opened Wrappers

  const I64Min: int := -0x8000_0000_0000_0000
  const I64Bound: int := 0x8000_0000_0000_0000
  const U64Bound: int := 0x1_0000_0000_0000_0000

  datatype Value =
    | JNull
    | JBool(b: bool)
    | JNum(n: int)
    | JFloat
    | JStr(s: string)
    | JArr(items: seq<Value>)
    | JObj(fields: map<string, Value>)
  {
    /** serde's `is_i64`: an integer that fits in a signed 64-bit word. */
    predicate IsI64() {
      JNum? && I64Min <= n < I64Bound
    }

    /** serde's `is_u64`: a non-negative integer that fits in an unsigned 64-bit word. */
    predicate IsU64() {
      JNum? && 0 <= n < U64Bound
    }
  }

  /** serde's `value.get(field)`: the field of an object, nothing for an absent field
      or a value that is not an object. */
  function Get(v: Value, field: string): (r: Option<Value>)
    ensures r.Some? <==> v.JObj? && field in v.fields
    ensures r.Some? ==> r.value == v.fields[field]
  {
    if v.JObj? && field in v.fields then Some(v.fields[field]) else None
  }

  /** serde's `value[field]`: like `Get`, but JSON null where `Get` gives nothing. */
  function Index(v: Value, field: string): (r: Value)
    ensures Get(v, field).Some? ==> r == Get(v, field).value
    ensures Get(v, field).None? ==> r == JNull
    ensures !v.JObj? ==> r == JNull
  {
    match Get(v, field)
    case Some(x) => x
    case None => JNull
  }

  /** The success sentinel every mutating operation returns (`NULL_VAL`). */
  const NullVal: Value := JNull
}
