// Helpers of include/royale/util.hpp: C-string matching, among/within,
// ordered map keys, the double-or-string Value and the polymorphic JSON
// dispatch every ValueSpec goes through.
module Util {
  import opened Wrappers
  import opened JsonTree

  // ---------------------------------------------------------------------
  // C strings

  const NUL: char := 0 as char

  /** What a C routine sees of `s`: the characters before the first NUL. */
  function CStr(s: string): (r: string)
    ensures r <= s
    ensures NUL !in r
    ensures |r| < |s| ==> s[|r|] == NUL
  {
    if s == [] || s[0] == NUL then [] else [s[0]] + CStr(s[1..])
  }

  /** `strncmp(a, b, |a|) == 0`: characters agree up to the first
      difference, or up to a NUL both share. */
  function NCmpEqual(a: string, b: string): bool
    requires |a| == |b|
  {
    if a == [] then true
    else if a[0] != b[0] then false
    else if a[0] == NUL then true
    else NCmpEqual(a[1..], b[1..])
  }

  /** strncmp over equal lengths compares the C strings the two spans hold. */
  lemma {:induction false} NCmpEqualIsCStrEqual(a: string, b: string)
    requires |a| == |b|
    ensures NCmpEqual(a, b) <==> CStr(a) == CStr(b)
  {
    if a == [] {
    } else if a[0] != b[0] {
      if a[0] == NUL || b[0] == NUL {
        assert CStr(a) == [] || CStr(b) == [];
        assert CStr(a) != CStr(b) by {
          if a[0] == NUL { assert CStr(b) == [b[0]] + CStr(b[1..]); }
          else { assert CStr(a) == [a[0]] + CStr(a[1..]); }
        }
      } else {
        assert CStr(a)[0] == a[0] && CStr(b)[0] == b[0];
      }
    } else if a[0] == NUL {
    } else {
      NCmpEqualIsCStrEqual(a[1..], b[1..]);
      assert CStr(a) == [a[0]] + CStr(a[1..]);
      assert CStr(b) == [b[0]] + CStr(b[1..]);
      if CStr(a) == CStr(b) {
        assert CStr(a[1..]) == CStr(a)[1..];
      }
    }
  }

  /** On text without NUL characters strncmp is plain equality. */
  lemma {:induction false} NCmpEqualPlain(a: string, b: string)
    requires |a| == |b|
    ensures NUL !in a && NUL !in b ==> (NCmpEqual(a, b) <==> a == b)
  {
    if a != [] && a[0] == b[0] && NUL !in a && NUL !in b {
      NCmpEqualPlain(a[1..], b[1..]);
      if a[1..] == b[1..] { assert a == [a[0]] + a[1..]; assert b == [b[0]] + b[1..]; }
    }
  }

  /** ends_with(s, slen, suffix, suflen): too short is false, otherwise
      strncmp of the tail against the suffix. */
  function EndsWith(s: string, suffix: string): (r: bool)
    ensures |s| < |suffix| ==> !r
    ensures |s| >= |suffix| ==> (r <==> CStr(s[|s| - |suffix|..]) == CStr(suffix))
    ensures NUL !in s && NUL !in suffix ==>
      (r <==> |s| >= |suffix| && s[|s| - |suffix|..] == suffix)
  {
    if |s| < |suffix| then false
    else
      var tail := s[|s| - |suffix|..];
      NCmpEqualIsCStrEqual(tail, suffix);
      NCmpEqualPlain(tail, suffix);
      NCmpEqual(tail, suffix)
  }

  /** begins_with(s, slen, prefix, prelen), the mirror image of EndsWith. */
  function BeginsWith(s: string, prefix: string): (r: bool)
    ensures |s| < |prefix| ==> !r
    ensures |s| >= |prefix| ==> (r <==> CStr(s[..|prefix|]) == CStr(prefix))
    ensures NUL !in s && NUL !in prefix ==> (r <==> prefix <= s)
  {
    if |s| < |prefix| then false
    else
      var head := s[..|prefix|];
      NCmpEqualIsCStrEqual(head, prefix);
      NCmpEqualPlain(head, prefix);
      NCmpEqual(head, prefix)
  }

  // ---------------------------------------------------------------------
  // within / among

  /** within(val, min, max): both bounds are inclusive. */
  function Within(val: real, min: real, max: real): (r: bool)
    ensures r <==> min <= val <= max
  {
    val >= min && val <= max
  }

  /** among(val, c0, c1, ...): compares against each candidate in turn;
      with no candidates left the answer is false. */
  function Among<T(==)>(val: T, cands: seq<T>): bool
  {
    if cands == [] then false
    else if val == cands[0] then true
    else Among(val, cands[1..])
  }

  lemma {:induction false} AmongIsMembership<T>(val: T, cands: seq<T>)
    ensures Among(val, cands) <==> val in cands
  {
    if cands != [] && val != cands[0] {
      AmongIsMembership(val, cands[1..]);
      assert cands == [cands[0]] + cands[1..];
    }
  }

  // ---------------------------------------------------------------------
  // Key order of std::map<std::string, _>

  /** std::string's operator<: lexicographic, a proper prefix first. */
  predicate StrLt(a: string, b: string)
  {
    if a == [] then b != []
    else if b == [] then false
    else if a[0] != b[0] then a[0] < b[0]
    else StrLt(a[1..], b[1..])
  }

  lemma {:induction false} StrLtIrreflexive(a: string)
    ensures !StrLt(a, a)
  {
    if a != [] { StrLtIrreflexive(a[1..]); }
  }

  lemma {:induction false} StrLtTransitive(a: string, b: string, c: string)
    requires StrLt(a, b) && StrLt(b, c)
    ensures StrLt(a, c)
  {
    if a != [] && b != [] && c != [] && a[0] == b[0] && b[0] == c[0] {
      StrLtTransitive(a[1..], b[1..], c[1..]);
    }
  }

  lemma {:induction false} StrLtTotal(a: string, b: string)
    requires a != b
    ensures StrLt(a, b) || StrLt(b, a)
  {
    if a != [] && b != [] && a[0] == b[0] {
      StrLtTotal(a[1..], b[1..]);
    }
  }

  predicate IsLeast(m: string, s: set<string>)
  {
    m in s && forall o | o in s :: o == m || StrLt(m, o)
  }

  lemma {:induction false} LeastExists(s: set<string>) returns (m: string)
    requires s != {}
    ensures IsLeast(m, s)
    decreases |s|
  {
    var x :| x in s;
    if s == {x} {
      m := x;
    } else {
      var rest := LeastExists(s - {x});
      if StrLt(x, rest) {
        m := x;
        forall o | o in s ensures o == m || StrLt(m, o) {
          if o != x && o != rest { StrLtTransitive(x, rest, o); }
        }
      } else {
        m := rest;
        if rest != x { StrLtTotal(rest, x); }
      }
    }
  }

  lemma LeastUnique(m: string, s: set<string>)
    requires IsLeast(m, s)
    ensures forall o | IsLeast(o, s) :: o == m
  {
    forall o | IsLeast(o, s) ensures o == m {
      if o != m {
        assert StrLt(m, o) && StrLt(o, m);
        StrLtTransitive(m, o, m);
        StrLtIrreflexive(m);
      }
    }
  }

  /** The smallest key of a non-empty key set. */
  function Least(s: set<string>): (m: string)
    requires s != {}
    ensures IsLeast(m, s)
  {
    assert exists m :: IsLeast(m, s) by {
      var m := LeastExists(s);
    }
    var m :| IsLeast(m, s) && (LeastUnique(m, s); true);
    m
  }

  predicate StrictlySorted(keys: seq<string>)
  {
    forall i, j | 0 <= i < j < |keys| :: StrLt(keys[i], keys[j])
  }

  /** The keys of a std::map in iteration order: the least key first
      (SortedKeysSorted shows the order is strict). */
  function SortedKeys(s: set<string>): (r: seq<string>)
    ensures |r| == |s|
    ensures forall k :: k in r <==> k in s
    decreases |s|
  {
    if s == {} then []
    else
      var m := Least(s);
      [m] + SortedKeys(s - {m})
  }

  /** The keys come out in strictly increasing order, hence each once. */
  lemma {:induction false} SortedKeysSorted(s: set<string>)
    ensures StrictlySorted(SortedKeys(s))
    decreases |s|
  {
    if s != {} {
      var m := Least(s);
      var rest := SortedKeys(s - {m});
      SortedKeysSorted(s - {m});
      forall j | 0 <= j < |rest| ensures StrLt(m, rest[j]) {
        assert rest[j] in s - {m};
      }
      assert SortedKeys(s) == [m] + rest;
    }
  }

  lemma AppendAssoc<T>(a: seq<T>, b: seq<T>, c: seq<T>)
    ensures a + (b + c) == (a + b) + c
  {
  }

  /** The first key in order is the least one. */
  lemma SortedKeysFirst(s: set<string>)
    requires s != {}
    ensures SortedKeys(s) == [Least(s)] + SortedKeys(s - {Least(s)})
  {
  }

  /** get_keys(map): appends each key while walking the map in order. */
  method GetKeys<V>(m: map<string, V>) returns (keys: seq<string>)
    ensures keys == SortedKeys(m.Keys)
    ensures |keys| == |m|
    ensures forall k :: k in keys <==> k in m
    ensures StrictlySorted(keys)
  {
    keys := [];
    var rest := m.Keys;
    while rest != {}
      invariant keys + SortedKeys(rest) == SortedKeys(m.Keys)
      decreases |rest|
    {
      var cur := Least(rest);
      ghost var later := SortedKeys(rest - {cur});
      SortedKeysFirst(rest);
      AppendAssoc(keys, [cur], later);
      keys := keys + [cur];
      rest := rest - {cur};
    }
    assert SortedKeys(rest) == [];
    assert keys + [] == keys;
    SortedKeysSorted(m.Keys);
  }

  // ---------------------------------------------------------------------
  // Value: boost::variant<double, std::string>

  datatype Value = VDouble(d: real) | VString(s: string)

  /** A default-constructed Value holds the double 0. */
  const DefaultValue: Value := VDouble(0.0)

  /** xtd::dbl: boost::get<double>, which throws on a string. */
  function Dbl(v: Value): (r: Result<real>)
    ensures r.Ok? <==> v.VDouble?
    ensures r.Ok? ==> r.value == v.d
    ensures r.Err? ==> r.error == BadGet
  {
    if v.VDouble? then Ok(v.d) else Err(BadGet)
  }

  /** to_json of a Value writes the alternative it holds. */
  function EncodeValue(v: Value): (j: Json)
    ensures v.VDouble? <==> j.JNum?
    ensures v.VString? <==> j.JStr?
  {
    match v
    case VDouble(d) => JNum(d)
    case VString(s) => JStr(s)
  }

  /** from_json into a Value: a number or a string replaces it, any other
      JSON leaves it as it was. */
  function DecodeValueInto(j: Json, prior: Value): (v: Value)
    ensures j.JNum? ==> v == VDouble(j.n)
    ensures j.JStr? ==> v == VString(j.s)
    ensures !j.JNum? && !j.JStr? ==> v == prior
  {
    match j
    case JNum(n) => VDouble(n)
    case JStr(s) => VString(s)
    case _ => prior
  }

  lemma ValueRoundTrip(v: Value, prior: Value)
    ensures DecodeValueInto(EncodeValue(v), prior) == v
  {
  }

  // ---------------------------------------------------------------------
  // JsonPolymorphic

  /** The object a polymorphic handle holds: its type name and the JSON of
      its fields. */
  datatype Tagged = Tagged(typeName: string, payload: Json)

  /** to_json of a polymorphic handle: empty gives null, otherwise a
      one-entry object from the type name to the payload, where a null
      payload (a type with no fields) is written as `{}`. */
  function PolyEncode(obj: Option<Tagged>): (j: Json)
    ensures obj.None? <==> j == JNull
    ensures obj.Some? ==> j.JObj? && j.fields.Keys == {obj.value.typeName}
    ensures obj.Some? ==>
              j.fields[obj.value.typeName] ==
              (if obj.value.payload == JNull then EmptyObject else obj.value.payload)
  {
    match obj
    case None => JNull
    case Some(Tagged(name, payload)) =>
      JObj(map[name := if payload == JNull then EmptyObject else payload])
  }

  /** What from_json does with a polymorphic handle. */
  datatype PolyShape =
    | SetNull                               // reset the handle
    | Init(typeName: string, payload: Json) // build the named type from the payload
    | Keep                                  // leave the handle untouched

  /** from_json of a polymorphic handle: null empties it, a string names a
      type built from null, a one-entry object names the type and carries
      its payload; anything else is ignored. */
  function PolyDispatch(j: Json): (r: PolyShape)
    ensures r.SetNull? <==> j.JNull?
    ensures r.Keep? <==> !(j.JNull? || j.JStr? || (j.JObj? && |j.fields| == 1))
    ensures j.JStr? ==> r == Init(j.s, JNull)
    ensures j.JObj? && |j.fields| == 1 ==>
      r.Init? && j.fields == map[r.typeName := r.payload]
  {
    match j
    case JNull => SetNull
    case JStr(s) => Init(s, JNull)
    case JObj(o) =>
      if |o| == 1 then
        var k := TheKey(o);
        assert o == map[k := o[k]];
        Init(k, o[k])
      else Keep
    case _ => Keep
  }

  lemma PolyRoundTrip(t: Tagged)
    ensures PolyDispatch(PolyEncode(Some(t))) ==
      Init(t.typeName, if t.payload == JNull then EmptyObject else t.payload)
    ensures PolyDispatch(PolyEncode(None)) == SetNull
  {
    var j := PolyEncode(Some(t));
    assert |j.fields| == 1 by { assert j.fields.Keys == {t.typeName}; }
    var r := PolyDispatch(j);
    assert r.typeName in j.fields;
  }

  /** Which constructor init_impl picks for a type name. */
  datatype Resolution =
    | StaticType(index: nat)     // the index-th type listed in the handle's type pack
    | RuntimeType(name: string)  // a constructor registered at run time under `name`
    | Unknown(message: string)   // nothing matches: init throws this runtime_error message

  const UnknownTypeMessage: string := "Tried to init JsonPolymorphic with unknown type: "

  /** First index of `name` among the static type names, if any. */
  function FirstIndex(name: string, statics: seq<string>, from: nat): (r: Option<nat>)
    requires from <= |statics|
    ensures r.Some? ==>
              && from <= r.value < |statics| && statics[r.value] == name
              && forall k | from <= k < r.value :: statics[k] != name
    ensures r.None? ==> forall k | from <= k < |statics| :: statics[k] != name
    decreases |statics| - from
  {
    if from == |statics| then None
    else if statics[from] == name then Some(from)
    else FirstIndex(name, statics, from + 1)
  }

  /** init_impl: the name is compared (as a C string) with each static type
      name in order, then looked up among the run-time constructors. */
  function Resolve(typeName: string, statics: seq<string>, registered: set<string>): (r: Resolution)
    ensures r.StaticType? ==>
              && r.index < |statics| && statics[r.index] == CStr(typeName)
              && forall k | 0 <= k < r.index :: statics[k] != CStr(typeName)
    ensures r.RuntimeType? ==>
              && CStr(typeName) !in statics && CStr(typeName) in registered
              && r.name == CStr(typeName)
    ensures r.Unknown? <==> CStr(typeName) !in statics && CStr(typeName) !in registered
    ensures r.Unknown? ==> r.message == UnknownTypeMessage + CStr(typeName)
  {
    var name := CStr(typeName);
    match FirstIndex(name, statics, 0)
    case Some(i) => StaticType(i)
    case None =>
      if name in registered then RuntimeType(name)
      else Unknown(UnknownTypeMessage + name)
  }

  /** The run-time constructor table of one polymorphic base: each
      registered name maps to the type name of the object its constructor
      builds. */
  class ConstructRegistry {
    var constructs: map<string, string>

    constructor ()
      ensures constructs == map[]
    {
      constructs := map[];
    }

    /** register_runtime_construct: a later registration under the same
        name replaces the earlier one. */
    method Register(name: string, builds: string)
      modifies this
      ensures constructs == old(constructs)[name := builds]
    {
      constructs := constructs[name := builds];
    }
  }
}
