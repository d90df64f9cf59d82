// include/royale/InputSpec.hpp: the named value specifications of one
// experiment, sampled together into one trial's inputs.
module Inputs {
  import opened Wrappers
  import opened JsonTree
  import opened Util
  import opened ValueSpecs

  class InputSpec {
    var input: map<string, Enum>

    constructor ()
      ensures input == map[]
    {
      input := map[];
    }

    constructor FromMap(m: map<string, Enum>)
      ensures input == m
    {
      input := m;
    }

    /** inputs(v): replaces the whole map. */
    method SetInputs(v: map<string, Enum>)
      modifies this
      ensures input == v
    {
      input := v;
    }

    /** extend_inputs()(key, spec): emplace, so an existing key keeps its
        specification. */
    method ExtendInputs(key: string, spec: Enum)
      modifies this
      ensures key in old(input) ==> input == old(input)
      ensures key !in old(input) ==> input == old(input)[key := spec]
    {
      if key !in input {
        input := input[key := spec];
      }
    }

    /** sample(): one value per named input, each drawn from its own
        specification, visiting the names in map order. */
    method Sample() returns (s: map<string, Value>)
      requires forall k | k in input :: Samplable(input[k])
      ensures s.Keys == input.Keys
      ensures forall k | k in s :: IsSampleOf(input[k], s[k])
    {
      s := map[];
      var rest := input.Keys;
      while rest != {}
        invariant rest <= input.Keys
        invariant s.Keys == input.Keys - rest
        invariant forall k | k in s :: IsSampleOf(input[k], s[k])
        decreases |rest|
      {
        var k := Least(rest);
        var v := ValueSpecs.Sample(input[k]);
        s := s[k := v];
        rest := rest - {k};
      }
    }
  }

  /** to_json: the map itself, each entry written by EncodeEnum. */
  function EncodeInputs(m: map<string, Enum>): (j: Json)
    requires forall k | k in m :: Present(m[k])
    ensures j.JObj? && j.fields.Keys == m.Keys
    ensures forall k | k in m :: j.fields[k] == EncodeEnum(m[k])
  {
    JObj(map k | k in m :: EncodeEnum(m[k]))
  }

  /** Decodes the entries named by `keys`, in that order; the first
      failure is the one reported. */
  function DecodeEntries(o: map<string, Json>, keys: seq<string>, reg: map<string, string>): Result<map<string, Enum>>
    requires forall i | 0 <= i < |keys| :: keys[i] in o
  {
    if keys == [] then Ok(map[])
    else
      var v :- DecodeEnum(o[keys[0]], Null, reg);
      var rest :- DecodeEntries(o, keys[1..], reg);
      Ok(rest[keys[0] := v])
  }

  /** Decoding the entries succeeds exactly when every one of them
      decodes, and then gives each named key its decoded value. */
  lemma {:induction false} DecodeEntriesMeaning(o: map<string, Json>, keys: seq<string>, reg: map<string, string>)
    requires forall i | 0 <= i < |keys| :: keys[i] in o
    ensures var r := DecodeEntries(o, keys, reg);
      && (r.Ok? <==> forall i | 0 <= i < |keys| :: DecodeEnum(o[keys[i]], Null, reg).Ok?)
      && (r.Ok? ==> forall k :: k in r.value <==> k in keys)
      && (r.Ok? ==> forall k | k in r.value :: DecodeEnum(o[k], Null, reg) == Ok(r.value[k]))
  {
    if keys != [] {
      var tail := keys[1..];
      DecodeEntriesMeaning(o, tail, reg);
      var r := DecodeEntries(o, keys, reg);
      var first := DecodeEnum(o[keys[0]], Null, reg);
      var rest := DecodeEntries(o, tail, reg);
      assert forall i | 1 <= i < |keys| :: keys[i] == tail[i - 1];
      if first.Err? {
        assert r.Err?;
      } else if rest.Err? {
        assert r.Err?;
        var i :| 0 <= i < |tail| && DecodeEnum(o[tail[i]], Null, reg).Err?;
        assert keys[i + 1] == tail[i];
      } else {
        assert r == Ok(rest.value[keys[0] := first.value]);
        assert forall k :: k in keys <==> k == keys[0] || k in tail;
      }
    }
  }

  /** from_json: `get<input_type>()`, which needs an object and decodes
      its entries in key order. */
  function DecodeInputs(j: Json, reg: map<string, string>): (r: Result<map<string, Enum>>)
    ensures !j.JObj? ==> r == Err(JsonTypeError)
    ensures j.JObj? ==> (r.Ok? <==> forall k | k in j.fields :: DecodeEnum(j.fields[k], Null, reg).Ok?)
    ensures r.Ok? ==> j.JObj? && r.value.Keys == j.fields.Keys
    ensures r.Ok? ==> forall k | k in r.value :: DecodeEnum(j.fields[k], Null, reg) == Ok(r.value[k])
  {
    if !j.JObj? then Err(JsonTypeError)
    else
      var keys := SortedKeys(j.fields.Keys);
      var r := DecodeEntries(j.fields, keys, reg);
      DecodeEntriesMeaning(j.fields, keys, reg);
      assert r.Ok? ==> r.value.Keys == j.fields.Keys by {
        if r.Ok? {
          forall k | k in j.fields ensures k in r.value {
            assert k in keys;
          }
        }
      }
      assert (forall k | k in j.fields :: DecodeEnum(j.fields[k], Null, reg).Ok?) ==> r.Ok? by {
        if forall k | k in j.fields :: DecodeEnum(j.fields[k], Null, reg).Ok? {
          forall i | 0 <= i < |keys| ensures DecodeEnum(j.fields[keys[i]], Null, reg).Ok? {
            assert keys[i] in j.fields;
          }
        }
      }
      r
  }

  lemma MapsAgree(a: map<string, Enum>, b: map<string, Enum>)
    requires a.Keys == b.Keys && forall k | k in a :: a[k] == b[k]
    ensures a == b
  {
  }

  /** An input map survives being written and read back. */
  lemma InputsRoundTrip(m: map<string, Enum>, reg: map<string, string>)
    requires forall k | k in m :: CodecReady(m[k], reg)
    ensures (forall k | k in m :: Present(m[k])) && DecodeInputs(EncodeInputs(m), reg) == Ok(m)
  {
    forall k | k in m ensures Present(m[k]) && DecodeEnum(EncodeEnum(m[k]), Null, reg) == Ok(m[k]) {
      EnumRoundTrip(m[k], Null, reg);
    }
    var j := EncodeInputs(m);
    assert forall k | k in j.fields :: DecodeEnum(j.fields[k], Null, reg).Ok?;
    var r := DecodeInputs(j, reg);
    MapsAgree(r.value, m);
  }

}
