// The JSON document tree that every (de)serializer of the core reads and writes.
module JsonTree {
  import opened Wrappers

  /** A JSON value.  Numbers are kept as reals; objects are maps, which
      nlohmann::json also keeps ordered by key. */
  datatype Json =
    | JNull
    | JBool(b: bool)
    | JNum(n: real)
    | JStr(s: string)
    | JArr(elems: seq<Json>)
    | JObj(fields: map<string, Json>)

  /** The empty object `{}`. */
  const EmptyObject: Json := JObj(map[])

  lemma OneKey<V>(o: map<string, V>, k: string)
    requires |o| == 1 && k in o
    ensures o.Keys == {k}
  {
    var rest := o.Keys - {k};
    assert o.Keys == rest + {k};
    assert |o.Keys| == |rest| + 1;
  }

  /** The only key of a single-entry object. */
  function TheKey<V>(o: map<string, V>): (k: string)
    requires |o| == 1
    ensures o.Keys == {k}
  {
    assert exists k :: k in o by {
      var m :| m in o.Keys;
    }
    var k :| k in o && (OneKey(o, k); true);
    k
  }

  /** json::find(name): only an object has fields; any other kind finds nothing. */
  function Field(j: Json, name: string): (r: Option<Json>)
    ensures r.Some? <==> j.JObj? && name in j.fields
    ensures r.Some? ==> r.value == j.fields[name]
  {
    if j.JObj? && name in j.fields then Some(j.fields[name]) else None
  }

  /** `x.truncate()` of a double converted to an integer type: toward zero. */
  function Trunc(x: real): (r: int)
    ensures x >= 0.0 ==> r as real <= x < r as real + 1.0
    ensures x < 0.0 ==> r as real - 1.0 < x <= r as real
  {
    if x >= 0.0 then x.Floor else -((-x).Floor)
  }

  const TwoTo32: int := 0x1_0000_0000

  type int32 = x: int | -0x8000_0000 <= x < 0x8000_0000
  type uint32 = x: int | 0 <= x < 0x1_0000_0000

  /** Two's-complement wrap-around into 32 bits, signed. */
  function WrapInt32(x: int): (r: int32)
    ensures (r - x) % TwoTo32 == 0
    ensures -0x8000_0000 <= x < 0x8000_0000 ==> r == x
  {
    var u := x % TwoTo32;
    if u < 0x8000_0000 then u else u - TwoTo32
  }

  /** Wrap-around into 32 bits, unsigned. */
  function WrapUInt32(x: int): (r: uint32)
    ensures (r - x) % TwoTo32 == 0
    ensures 0 <= x < TwoTo32 ==> r == x
  {
    x % TwoTo32
  }

  /** `j.get<double>()`: only a number converts. */
  function GetDouble(j: Json): (r: Result<real>)
    ensures r.Ok? <==> j.JNum?
    ensures r.Ok? ==> r.value == j.n
    ensures r.Err? ==> r.error == JsonTypeError
  {
    if j.JNum? then Ok(j.n) else Err(JsonTypeError)
  }

  /** `j.get<int>()`: a number truncated toward zero, then narrowed to 32
      bits; `int` is not one of the library's own number types, so its
      general arithmetic conversion also reads a boolean as 1 or 0. */
  function GetInt32(j: Json): (r: Result<int32>)
    ensures r.Ok? <==> j.JNum? || j.JBool?
    ensures j.JNum? ==> r == Ok(WrapInt32(Trunc(j.n)))
    ensures j.JBool? ==> r == Ok(if j.b then 1 else 0)
    ensures r.Err? ==> r.error == JsonTypeError
  {
    match j
    case JNum(n) => Ok(WrapInt32(Trunc(n)))
    case JBool(b) => Ok(if b then 1 else 0)
    case _ => Err(JsonTypeError)
  }

  /** `j.get<unsigned>()`: truncated toward zero, then reduced modulo 2^32
      (so -1 becomes 0xFFFFFFFF); a boolean reads as 1 or 0, as for `int`. */
  function GetUInt32(j: Json): (r: Result<uint32>)
    ensures r.Ok? <==> j.JNum? || j.JBool?
    ensures j.JNum? ==> r == Ok(WrapUInt32(Trunc(j.n)))
    ensures j.JBool? ==> r == Ok(if j.b then 1 else 0)
    ensures r.Err? ==> r.error == JsonTypeError
  {
    match j
    case JNum(n) => Ok(WrapUInt32(Trunc(n)))
    case JBool(b) => Ok(if b then 1 else 0)
    case _ => Err(JsonTypeError)
  }

  function GetString(j: Json): (r: Result<string>)
    ensures r.Ok? <==> j.JStr?
    ensures r.Ok? ==> r.value == j.s
  {
    if j.JStr? then Ok(j.s) else Err(JsonTypeError)
  }

  /** An integer written to JSON and read back with `get<int>()` is unchanged. */
  lemma Int32RoundTrip(x: int32)
    ensures GetInt32(JNum(x as real)) == Ok(x)
  {
    assert Trunc(x as real) == x;
  }

  /** An unsigned 32-bit value written to JSON and read back is unchanged. */
  lemma UInt32RoundTrip(x: uint32)
    ensures GetUInt32(JNum(x as real)) == Ok(x)
  {
    assert Trunc(x as real) == x;
  }
}
