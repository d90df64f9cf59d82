// include/royale/ValueSpec.hpp: how one experiment input is drawn, and how
// that description is written to and read from JSON.
module ValueSpecs {
  import opened Wrappers
  import opened JsonTree
  import opened Util

  /** The seed value that means "seed from the random device". */
  const Unseeded: uint32 := 0xFFFF_FFFF

  /** One value specification.  The random generator each randomized kind
      owns is not part of the value (see GenSeed). */
  datatype ValueSpec =
    | Constant(val: Value)
    | Uniform(low: real, high: real, seed: uint32)
    | UniformInt(lowInt: int32, highInt: int32, seed: uint32)
    | Choose(options: seq<Enum>, seed: uint32)
    | Registered(typeName: string)  // a type added with register_runtime_construct; it has no fields

  /** ValueSpec::Enum: a possibly empty polymorphic handle. */
  datatype Enum = Null | Spec(spec: ValueSpec)

  const DefaultConstant: ValueSpec := Constant(DefaultValue)
  const DefaultUniform: ValueSpec := Uniform(0.0, 1.0, Unseeded)
  const DefaultUniformInt: ValueSpec := UniformInt(0, 1, Unseeded)
  const DefaultChoose: ValueSpec := Choose([], Unseeded)

  /** The built-in kinds, in the order the handle tries them. */
  const StaticNames: seq<string> := ["Constant", "Uniform", "UniformInt", "Choose"]

  function TypeName(s: ValueSpec): string
  {
    match s
    case Constant(_) => "Constant"
    case Uniform(_, _, _) => "Uniform"
    case UniformInt(_, _, _) => "UniformInt"
    case Choose(_, _) => "Choose"
    case Registered(t) => t
  }

  /** save_direct_value: a Constant, and an unseeded Choose, are written
      bare; everything else is wrapped in `{type name: payload}`. */
  predicate SaveDirectValue(s: ValueSpec): (r: bool)
    ensures r <==> s.Constant? || (s.Choose? && s.seed == Unseeded)
  {
    match s
    case Constant(_) => true
    case Choose(_, seed) => seed == Unseeded
    case _ => false
  }

  /** gen_seed: the sentinel asks the random device, any other seed is used as is. */
  function GenSeed(seed: uint32, device: uint32): (r: uint32)
    ensures seed != Unseeded ==> r == seed
    ensures seed == Unseeded ==> r == device
  {
    if seed == Unseeded then device else seed
  }

  /** Every handle, at every depth, holds an object: what to_json and
      sample dereference without checking. */
  predicate Present(e: Enum)
  {
    e.Spec? &&
    match e.spec
    case Choose(opts, _) => forall k | 0 <= k < |opts| :: Present(opts[k])
    case _ => true
  }

  // ---------------------------------------------------------------------
  // to_json

  /** to_json of the concrete object. */
  function EncodePayload(s: ValueSpec): (j: Json)
    requires Present(Spec(s))
    ensures s.Constant? ==> j == EncodeValue(s.val)
    ensures (s.Uniform? || s.UniformInt?) && s.seed == Unseeded ==> IsNumberPair(j)
    ensures (s.Uniform? || s.UniformInt?) && s.seed != Unseeded ==>
              j.JObj? && j.fields.Keys == {"range", "seed"} && IsNumberPair(j.fields["range"]) &&
              j.fields["seed"] == JNum(s.seed as real)
    ensures s.Uniform? ==> var p := if IsNumberPair(j) then j else j.fields["range"];
              p.elems[0].n == s.low && p.elems[1].n == s.high
    ensures s.UniformInt? ==> var p := if IsNumberPair(j) then j else j.fields["range"];
              p.elems[0].n == s.lowInt as real && p.elems[1].n == s.highInt as real
    ensures s.Choose? && s.seed == Unseeded ==> j.JArr? && |j.elems| == |s.options|
    ensures s.Choose? && s.seed != Unseeded ==>
              j.JObj? && j.fields.Keys == {"options", "seed"} && j.fields["seed"] == JNum(s.seed as real) &&
              j.fields["options"].JArr? && |j.fields["options"].elems| == |s.options|
    ensures s.Registered? ==> j == JNull
    decreases s, 1
  {
    match s
    case Constant(v) => EncodeValue(v)
    case Uniform(lo, hi, seed) =>
      var range := JArr([JNum(lo), JNum(hi)]);
      if seed == Unseeded then range
      else JObj(map["range" := range, "seed" := JNum(seed as real)])
    case UniformInt(lo, hi, seed) =>
      var range := JArr([JNum(lo as real), JNum(hi as real)]);
      if seed == Unseeded then range
      else JObj(map["range" := range, "seed" := JNum(seed as real)])
    case Choose(opts, seed) =>
      var arr := JArr(EncodeOptions(s));
      if seed != Unseeded then JObj(map["options" := arr, "seed" := JNum(seed as real)])
      else arr
    case Registered(_) => JNull
  }

  function EncodeOptions(s: ValueSpec): (r: seq<Json>)
    requires s.Choose? && Present(Spec(s))
    ensures |r| == |s.options|
    decreases s, 0
  {
    seq(|s.options|, k requires 0 <= k < |s.options| => EncodeEnum(s.options[k]))
  }

  /** to_json of ValueSpec::Enum: the payload itself for a direct kind,
      otherwise the polymorphic `{type name: payload}` form. */
  function EncodeEnum(e: Enum): (j: Json)
    requires Present(e)
    ensures SaveDirectValue(e.spec) ==> j == EncodePayload(e.spec)
    ensures !SaveDirectValue(e.spec) ==>
              j.JObj? && j.fields.Keys == {TypeName(e.spec)} &&
              j.fields[TypeName(e.spec)] ==
                (if EncodePayload(e.spec) == JNull then EmptyObject else EncodePayload(e.spec))
    decreases e, 2
  {
    var s := e.spec;
    if SaveDirectValue(s) then EncodePayload(s)
    else PolyEncode(Some(Tagged(TypeName(s), EncodePayload(s))))
  }

  // ---------------------------------------------------------------------
  // from_json

  /** from_json of a Constant. */
  function DecodeConstant(p: Json): (s: ValueSpec)
    ensures s.Constant?
    ensures p.JNum? ==> s.val == VDouble(p.n)
    ensures p.JStr? ==> s.val == VString(p.s)
    ensures !p.JNum? && !p.JStr? && Field(p, "val").None? ==> s == DefaultConstant
    ensures !p.JNum? && !p.JStr? && Field(p, "val").Some? ==>
              s == Constant(DecodeValueInto(Field(p, "val").value, DefaultValue))
  {
    if p.JNum? then Constant(VDouble(p.n))
    else if p.JStr? then Constant(VString(p.s))
    else match Field(p, "val")
      case Some(v) => Constant(DecodeValueInto(v, DefaultValue))
      case None => DefaultConstant
  }

  /** `get<std::array<double, 2>>()`: an array, whose first two elements are numbers. */
  function DecodeRange(j: Json): (r: Result<(real, real)>)
    ensures r.Ok? <==> j.JArr? && |j.elems| >= 2 && j.elems[0].JNum? && j.elems[1].JNum?
    ensures r.Ok? ==> r.value == (j.elems[0].n, j.elems[1].n)
  {
    if !j.JArr? then Err(JsonTypeError)
    else if |j.elems| < 1 then Err(JsonOutOfRange)
    else
      var lo :- GetDouble(j.elems[0]);
      if |j.elems| < 2 then Err(JsonOutOfRange)
      else
        var hi :- GetDouble(j.elems[1]);
        Ok((lo, hi))
  }

  /** `get<std::array<int, 2>>()`: each of the first two elements read with `get<int>()`. */
  function DecodeIntRange(j: Json): (r: Result<(int32, int32)>)
    ensures r.Ok? <==> j.JArr? && |j.elems| >= 2 && IsIntLike(j.elems[0]) && IsIntLike(j.elems[1])
    ensures r.Ok? ==> r.value == (GetInt32(j.elems[0]).value, GetInt32(j.elems[1]).value)
    ensures r.Ok? && j.elems[0].JNum? && j.elems[1].JNum? ==>
              r.value == (WrapInt32(Trunc(j.elems[0].n)), WrapInt32(Trunc(j.elems[1].n)))
    ensures r.Ok? && j.elems[0].JBool? ==> r.value.0 == (if j.elems[0].b then 1 else 0)
    ensures r.Ok? && j.elems[1].JBool? ==> r.value.1 == (if j.elems[1].b then 1 else 0)
    ensures r.Err? ==> r.error == (if j.JArr? && |j.elems| >= 2 && IsIntLike(j.elems[0]) then JsonTypeError
                                   else if j.JArr? && |j.elems| >= 1 && IsIntLike(j.elems[0]) then JsonOutOfRange
                                   else if j.JArr? && |j.elems| >= 1 then JsonTypeError
                                   else if j.JArr? then JsonOutOfRange else JsonTypeError)
  {
    if !j.JArr? then Err(JsonTypeError)
    else if |j.elems| < 1 then Err(JsonOutOfRange)
    else
      var lo :- GetInt32(j.elems[0]);
      if |j.elems| < 2 then Err(JsonOutOfRange)
      else
        var hi :- GetInt32(j.elems[1]);
        Ok((lo, hi))
  }

  /** What `get<int>()` and `get<unsigned>()` accept: a number or a boolean. */
  predicate IsIntLike(j: Json)
  {
    j.JNum? || j.JBool?
  }

  /** The optional "seed" field, defaulting to the sentinel. */
  function DecodeSeed(p: Json): (r: Result<uint32>)
    ensures Field(p, "seed").None? ==> r == Ok(Unseeded)
    ensures Field(p, "seed").Some? ==> r == GetUInt32(p.fields["seed"])
  {
    match Field(p, "seed")
    case None => Ok(Unseeded)
    case Some(v) => GetUInt32(v)
  }

  predicate IsNumberPair(p: Json)
  {
    p.JArr? && |p.elems| == 2 && p.elems[0].JNum? && p.elems[1].JNum?
  }

  /** from_json of a Uniform: a pair of numbers sets only the range;
      anything else is read field by field from the defaults. */
  function DecodeUniform(p: Json): (r: Result<ValueSpec>)
    ensures IsNumberPair(p) ==> r == Ok(Uniform(p.elems[0].n, p.elems[1].n, Unseeded))
    ensures !IsNumberPair(p) && Field(p, "range").None? && Field(p, "seed").None? ==>
              r == Ok(DefaultUniform)
    ensures !IsNumberPair(p) ==>
              (r.Ok? <==> (Field(p, "range").None? || DecodeRange(Field(p, "range").value).Ok?)
                          && DecodeSeed(p).Ok?)
    ensures !IsNumberPair(p) && r.Ok? ==>
              var range := if Field(p, "range").Some? then DecodeRange(Field(p, "range").value).value else (0.0, 1.0);
              r.value == Uniform(range.0, range.1, DecodeSeed(p).value)
    ensures r.Ok? ==> r.value.Uniform?
  {
    if IsNumberPair(p) then Ok(Uniform(p.elems[0].n, p.elems[1].n, Unseeded))
    else
      var range :- match Field(p, "range")
        case None => Ok((0.0, 1.0))
        case Some(v) => DecodeRange(v);
      var seed :- DecodeSeed(p);
      Ok(Uniform(range.0, range.1, seed))
  }

  /** from_json of a UniformInt, the same shape with integer bounds. */
  function DecodeUniformInt(p: Json): (r: Result<ValueSpec>)
    ensures IsNumberPair(p) ==>
              r == Ok(UniformInt(WrapInt32(Trunc(p.elems[0].n)), WrapInt32(Trunc(p.elems[1].n)), Unseeded))
    ensures !IsNumberPair(p) && Field(p, "range").None? && Field(p, "seed").None? ==>
              r == Ok(DefaultUniformInt)
    ensures !IsNumberPair(p) ==>
              (r.Ok? <==> (Field(p, "range").None? || DecodeIntRange(Field(p, "range").value).Ok?)
                          && DecodeSeed(p).Ok?)
    ensures !IsNumberPair(p) && r.Ok? ==>
              var range := if Field(p, "range").Some? then DecodeIntRange(Field(p, "range").value).value else (0, 1);
              r.value == UniformInt(range.0, range.1, DecodeSeed(p).value)
    ensures r.Ok? ==> r.value.UniformInt?
  {
    if IsNumberPair(p) then
      Ok(UniformInt(WrapInt32(Trunc(p.elems[0].n)), WrapInt32(Trunc(p.elems[1].n)), Unseeded))
    else
      var range :- match Field(p, "range")
        case None => Ok((0, 1))
        case Some(v) => DecodeIntRange(v);
      var seed :- DecodeSeed(p);
      Ok(UniformInt(range.0, range.1, seed))
  }

  /** `get<std::vector<Enum>>()` from element `i` on: each element is
      decoded into an empty handle; the first failure wins. */
  function DecodeOptions(arr: Json, i: nat, reg: map<string, string>): (r: Result<seq<Enum>>)
    requires arr.JArr? && i <= |arr.elems|
    ensures r.Ok? ==> |r.value| == |arr.elems| - i
    decreases arr, 0, |arr.elems| - i
  {
    if i == |arr.elems| then Ok([])
    else
      var first :- DecodeEnum(arr.elems[i], Null, reg);
      var rest :- DecodeOptions(arr, i + 1, reg);
      Ok([first] + rest)
  }

  /** from_json of a Choose: an array gives the options (seed untouched);
      anything else is read field by field from the defaults. */
  function DecodeChoose(p: Json, reg: map<string, string>): (r: Result<ValueSpec>)
    ensures r.Ok? ==> r.value.Choose?
    ensures p.JArr? && r.Ok? ==> r.value.seed == Unseeded && |r.value.options| == |p.elems|
    decreases p, 1
  {
    if p.JArr? then
      var opts :- DecodeOptions(p, 0, reg);
      Ok(Choose(opts, Unseeded))
    else
      var opts :- match Field(p, "options")
        case None => Ok([])
        case Some(o) =>
          assert o == p.fields["options"];
          if o.JArr? then DecodeOptions(o, 0, reg) else Err(JsonTypeError);
      var seed :- DecodeSeed(p);
      Ok(Choose(opts, seed))
  }

  /** JsonPolymorphic::init for ValueSpec: a built-in kind is default
      constructed and read from the payload; a run-time registered name
      builds its registered type; an unknown name throws. */
  function InitSpec(name: string, payload: Json, reg: map<string, string>): (r: Result<Enum>)
    ensures Resolve(name, StaticNames, reg.Keys).Unknown? ==> r == Err(RuntimeError(UnknownTypeMessage + CStr(name)))
    ensures Resolve(name, StaticNames, reg.Keys).RuntimeType? ==> r == Ok(Spec(Registered(reg[CStr(name)])))
    decreases payload, 2
  {
    match Resolve(name, StaticNames, reg.Keys)
    case StaticType(i) =>
      if i == 0 then Ok(Spec(DecodeConstant(payload)))
      else if i == 1 then var s :- DecodeUniform(payload); Ok(Spec(s))
      else if i == 2 then var s :- DecodeUniformInt(payload); Ok(Spec(s))
      else var s :- DecodeChoose(payload, reg); Ok(Spec(s))
    case RuntimeType(n) => Ok(Spec(Registered(reg[n])))
    case Unknown(msg) => Err(RuntimeError(msg))
  }

  /** from_json of ValueSpec::Enum: a number or a string is a Constant, an
      array is an unseeded Choose, anything else goes through the
      polymorphic handle (null empties it, unrecognised shapes keep `prior`). */
  function DecodeEnum(j: Json, prior: Enum, reg: map<string, string>): (r: Result<Enum>)
    ensures j.JNum? ==> r == Ok(Spec(Constant(VDouble(j.n))))
    ensures j.JStr? ==> r == Ok(Spec(Constant(VString(j.s))))
    ensures j.JArr? && r.Ok? ==> r.value.Spec? && r.value.spec.Choose? && r.value.spec.seed == Unseeded
    ensures j.JNull? ==> r == Ok(Null)
    ensures j.JBool? || (j.JObj? && |j.fields| != 1) ==> r == Ok(prior)
    decreases j, 3
  {
    match j
    case JNum(n) => Ok(Spec(Constant(VDouble(n))))
    case JStr(s) => Ok(Spec(Constant(VString(s))))
    case JArr(_) =>
      var opts :- DecodeOptions(j, 0, reg);
      Ok(Spec(Choose(opts, Unseeded)))
    case JNull => Ok(Null)
    case JBool(_) => Ok(prior)
    case JObj(o) =>
      match PolyDispatch(j)
      case Init(name, payload) =>
        assert name in o && payload == o[name];
        InitSpec(name, payload, reg)
      case _ => Ok(prior)
  }

  /** One step of the options read: the element at `i`, then the rest. */
  lemma DecodeOptionsStep(arr: Json, i: nat, reg: map<string, string>)
    requires arr.JArr? && i < |arr.elems|
    ensures var first := DecodeEnum(arr.elems[i], Null, reg);
            var rest := DecodeOptions(arr, i + 1, reg);
            DecodeOptions(arr, i, reg) ==
              if first.Err? then Err(first.error)
              else if rest.Err? then Err(rest.error)
              else Ok([first.value] + rest.value)
  {
  }

  /** Reads performed one after another, front to back: the first that
      fails stops the whole with its error. */
  function ReadAll(rs: seq<Result<Enum>>): (r: Result<seq<Enum>>)
    ensures r.Ok? ==> |r.value| == |rs|
  {
    if rs == [] then Ok([])
    else
      var first :- rs[0];
      var rest :- ReadAll(rs[1..]);
      Ok([first] + rest)
  }

  /** The reads succeed exactly when each one does, and then yield their values in order. */
  lemma {:induction false} ReadAllMeaning(rs: seq<Result<Enum>>)
    ensures ReadAll(rs).Ok? <==> forall k | 0 <= k < |rs| :: rs[k].Ok?
    ensures ReadAll(rs).Ok? ==> forall k | 0 <= k < |rs| :: ReadAll(rs).value[k] == rs[k].value
  {
    if rs != [] {
      ReadAllMeaning(rs[1..]);
      assert forall k | 1 <= k < |rs| :: rs[1..][k - 1] == rs[k];
    }
  }

  /** The reads of the array's elements from `i` on, each into an empty handle. */
  function ElementReads(arr: Json, i: nat, reg: map<string, string>): (rs: seq<Result<Enum>>)
    requires arr.JArr? && i <= |arr.elems|
    ensures |rs| == |arr.elems| - i
  {
    seq(|arr.elems| - i, k requires 0 <= k < |arr.elems| - i => DecodeEnum(arr.elems[i + k], Null, reg))
  }

  lemma ReadAllCons(first: Result<Enum>, rest: seq<Result<Enum>>)
    ensures ReadAll([first] + rest) ==
              if first.Err? then Err(first.error)
              else if ReadAll(rest).Err? then Err(ReadAll(rest).error)
              else Ok([first.value] + ReadAll(rest).value)
  {
    assert ([first] + rest)[1..] == rest;
  }

  lemma ElementReadsCons(arr: Json, i: nat, reg: map<string, string>)
    requires arr.JArr? && i < |arr.elems|
    ensures ElementReads(arr, i, reg) == [DecodeEnum(arr.elems[i], Null, reg)] + ElementReads(arr, i + 1, reg)
  {
    var rs := ElementReads(arr, i, reg);
    assert rs[0] == DecodeEnum(arr.elems[i], Null, reg);
    assert rs[1..] == ElementReads(arr, i + 1, reg);
  }

  /** Reading the options is reading the elements one after another. */
  lemma {:induction false} DecodeOptionsReadsAll(arr: Json, i: nat, reg: map<string, string>)
    requires arr.JArr? && i <= |arr.elems|
    ensures DecodeOptions(arr, i, reg) == ReadAll(ElementReads(arr, i, reg))
    decreases |arr.elems| - i
  {
    if i < |arr.elems| {
      DecodeOptionsReadsAll(arr, i + 1, reg);
      DecodeOptionsStep(arr, i, reg);
      ElementReadsCons(arr, i, reg);
      ReadAllCons(DecodeEnum(arr.elems[i], Null, reg), ElementReads(arr, i + 1, reg));
    }
  }

  lemma ElementReadAt(arr: Json, i: nat, reg: map<string, string>, k: nat)
    requires arr.JArr? && i + k < |arr.elems|
    ensures ElementReads(arr, i, reg)[k] == DecodeEnum(arr.elems[i + k], Null, reg)
  {
  }

  /** The options read from element `i` on are those elements, each read
      into an empty handle, and the read fails exactly when one of theirs does. */
  lemma DecodeOptionsMeaning(arr: Json, i: nat, reg: map<string, string>)
    requires arr.JArr? && i <= |arr.elems|
    ensures DecodeOptions(arr, i, reg).Ok? <==>
              forall k | i <= k < |arr.elems| :: DecodeEnum(arr.elems[k], Null, reg).Ok?
    ensures DecodeOptions(arr, i, reg).Ok? ==>
              forall k | 0 <= k < |arr.elems| - i ::
                DecodeOptions(arr, i, reg).value[k] == DecodeEnum(arr.elems[i + k], Null, reg).value
  {
    var rs := ElementReads(arr, i, reg);
    DecodeOptionsReadsAll(arr, i, reg);
    ReadAllMeaning(rs);
    forall k | 0 <= k < |rs| ensures rs[k] == DecodeEnum(arr.elems[i + k], Null, reg) {
      ElementReadAt(arr, i, reg, k);
    }
    forall k | i <= k < |arr.elems| ensures rs[k - i] == DecodeEnum(arr.elems[k], Null, reg) {
      ElementReadAt(arr, i, reg, k - i);
    }
  }

  /** Choose::from_json of an array: the options are the element reads, unseeded. */
  lemma ChooseArrayReads(j: Json, reg: map<string, string>)
    requires j.JArr?
    ensures var o := ReadAll(ElementReads(j, 0, reg));
            DecodeChoose(j, reg) == if o.Err? then Err(o.error) else Ok(Choose(o.value, Unseeded))
  {
    DecodeOptionsReadsAll(j, 0, reg);
  }

  /** ValueSpec::Enum::from_json of an array is Choose::from_json of it. */
  lemma EnumArrayIsChoose(j: Json, prior: Enum, reg: map<string, string>)
    requires j.JArr?
    ensures var c := DecodeChoose(j, reg);
            DecodeEnum(j, prior, reg) == if c.Err? then Err(c.error) else Ok(Spec(c.value))
  {
  }

  /** A JSON array, read as a ValueSpec::Enum or as a Choose, is an unseeded
      Choose whose option k is element k read into an empty handle; the read
      fails exactly when some element's read fails. */
  lemma ArrayIsChoose(j: Json, prior: Enum, reg: map<string, string>)
    requires j.JArr?
    ensures DecodeChoose(j, reg).Ok? <==>
              forall k | 0 <= k < |j.elems| :: DecodeEnum(j.elems[k], Null, reg).Ok?
    ensures DecodeChoose(j, reg).Ok? ==>
              var c := DecodeChoose(j, reg).value;
              c.Choose? && c.seed == Unseeded && |c.options| == |j.elems| &&
              forall k | 0 <= k < |j.elems| :: c.options[k] == DecodeEnum(j.elems[k], Null, reg).value
    ensures DecodeEnum(j, prior, reg).Ok? <==> DecodeChoose(j, reg).Ok?
    ensures DecodeEnum(j, prior, reg).Ok? ==> DecodeEnum(j, prior, reg).value == Spec(DecodeChoose(j, reg).value)
  {
    var rs := ElementReads(j, 0, reg);
    ChooseArrayReads(j, reg);
    EnumArrayIsChoose(j, prior, reg);
    ReadAllMeaning(rs);
    forall k | 0 <= k < |j.elems| ensures rs[k] == DecodeEnum(j.elems[k], Null, reg) {
      ElementReadAt(j, 0, reg, k);
    }
  }

  // ---------------------------------------------------------------------
  // Round trip

  /** What the round trip needs: every handle present, and every run-time
      type registered under its own name, which is not a built-in name and
      holds no NUL. */
  ghost predicate CodecReady(e: Enum, reg: map<string, string>)
  {
    e.Spec? &&
    match e.spec
    case Choose(opts, _) => forall k | 0 <= k < |opts| :: CodecReady(opts[k], reg)
    case Registered(t) => NUL !in t && t !in StaticNames && t in reg && reg[t] == t
    case _ => true
  }

  lemma {:induction false} CodecReadyIsPresent(e: Enum, reg: map<string, string>)
    requires CodecReady(e, reg)
    ensures Present(e)
    decreases e
  {
    if e.spec.Choose? {
      forall k | 0 <= k < |e.spec.options| ensures Present(e.spec.options[k]) {
        CodecReadyIsPresent(e.spec.options[k], reg);
      }
    }
  }

  lemma {:induction false} CStrPlain(s: string)
    requires NUL !in s
    ensures CStr(s) == s
  {
    if s != [] { CStrPlain(s[1..]); }
  }

  lemma StaticResolves(i: nat, reg: map<string, string>)
    requires i < |StaticNames|
    ensures Resolve(StaticNames[i], StaticNames, reg.Keys) == StaticType(i)
  {
    CStrPlain(StaticNames[i]);
  }

  /** A tagged object decodes by initialising the named type from its payload. */
  lemma DecodeTagged(name: string, payload: Json, prior: Enum, reg: map<string, string>)
    requires payload != JNull
    ensures DecodeEnum(PolyEncode(Some(Tagged(name, payload))), prior, reg) == InitSpec(name, payload, reg)
  {
    PolyRoundTrip(Tagged(name, payload));
  }

  /** Decoding what EncodeEnum wrote gives back the same specification,
      whatever the handle held before. */
  lemma {:induction false} EnumRoundTrip(e: Enum, prior: Enum, reg: map<string, string>)
    requires CodecReady(e, reg)
    ensures Present(e) && DecodeEnum(EncodeEnum(e), prior, reg) == Ok(e)
    decreases e, 1
  {
    CodecReadyIsPresent(e, reg);
    match e.spec
    case Constant(v) =>
    case Uniform(lo, hi, seed) => UniformRoundTrip(lo, hi, seed, prior, reg);
    case UniformInt(lo, hi, seed) => UniformIntRoundTrip(lo, hi, seed, prior, reg);
    case Choose(opts, seed) => ChooseRoundTrip(e.spec, prior, reg);
    case Registered(t) =>
      CStrPlain(t);
      DecodeTagged(t, EmptyObject, prior, reg);
  }

  lemma UniformRoundTrip(lo: real, hi: real, seed: uint32, prior: Enum, reg: map<string, string>)
    ensures DecodeEnum(EncodeEnum(Spec(Uniform(lo, hi, seed))), prior, reg) == Ok(Spec(Uniform(lo, hi, seed)))
  {
    var s := Uniform(lo, hi, seed);
    var p := EncodePayload(s);
    assert EncodeEnum(Spec(s)) == PolyEncode(Some(Tagged("Uniform", p)));
    DecodeTagged("Uniform", p, prior, reg);
    StaticResolves(1, reg);
    UniformPayloadRoundTrip(lo, hi, seed);
  }

  lemma UniformPayloadRoundTrip(lo: real, hi: real, seed: uint32)
    ensures DecodeUniform(EncodePayload(Uniform(lo, hi, seed))) == Ok(Uniform(lo, hi, seed))
  {
    var p := EncodePayload(Uniform(lo, hi, seed));
    if seed != Unseeded {
      UInt32RoundTrip(seed);
      assert !IsNumberPair(p);
      assert Field(p, "range") == Some(JArr([JNum(lo), JNum(hi)]));
      assert DecodeSeed(p) == Ok(seed);
    }
  }

  lemma UniformIntRoundTrip(lo: int32, hi: int32, seed: uint32, prior: Enum, reg: map<string, string>)
    ensures DecodeEnum(EncodeEnum(Spec(UniformInt(lo, hi, seed))), prior, reg) == Ok(Spec(UniformInt(lo, hi, seed)))
  {
    var s := UniformInt(lo, hi, seed);
    var p := EncodePayload(s);
    assert EncodeEnum(Spec(s)) == PolyEncode(Some(Tagged("UniformInt", p)));
    DecodeTagged("UniformInt", p, prior, reg);
    StaticResolves(2, reg);
    UniformIntPayloadRoundTrip(lo, hi, seed);
  }

  lemma UniformIntPayloadRoundTrip(lo: int32, hi: int32, seed: uint32)
    ensures DecodeUniformInt(EncodePayload(UniformInt(lo, hi, seed))) == Ok(UniformInt(lo, hi, seed))
  {
    var p := EncodePayload(UniformInt(lo, hi, seed));
    Int32RoundTrip(lo);
    Int32RoundTrip(hi);
    if seed != Unseeded {
      UInt32RoundTrip(seed);
      assert !IsNumberPair(p);
      var range := JArr([JNum(lo as real), JNum(hi as real)]);
      assert Field(p, "range") == Some(range);
      assert DecodeIntRange(range) == Ok((lo, hi));
      assert DecodeSeed(p) == Ok(seed);
    } else {
      assert IsNumberPair(p);
    }
  }

  lemma {:induction false} ChooseRoundTrip(s: ValueSpec, prior: Enum, reg: map<string, string>)
    requires s.Choose? && CodecReady(Spec(s), reg) && Present(Spec(s))
    ensures DecodeEnum(EncodeEnum(Spec(s)), prior, reg) == Ok(Spec(s))
    decreases s, 1
  {
    var arr := JArr(EncodeOptions(s));
    OptionsRoundTrip(s, arr, 0, reg);
    assert s.options[0..] == s.options;
    if s.seed != Unseeded {
      var p := EncodePayload(s);
      assert EncodeEnum(Spec(s)) == PolyEncode(Some(Tagged("Choose", p)));
      UInt32RoundTrip(s.seed);
      DecodeTagged("Choose", p, prior, reg);
      StaticResolves(3, reg);
      assert Field(p, "options") == Some(arr);
      assert DecodeSeed(p) == Ok(s.seed);
    } else {
      assert EncodeEnum(Spec(s)) == arr;
    }
  }

  lemma {:induction false} OptionsRoundTrip(s: ValueSpec, arr: Json, i: nat, reg: map<string, string>)
    requires s.Choose? && forall k | 0 <= k < |s.options| :: CodecReady(s.options[k], reg)
    requires Present(Spec(s)) && arr == JArr(EncodeOptions(s)) && i <= |s.options|
    ensures DecodeOptions(arr, i, reg) == Ok(s.options[i..])
    decreases s, 0, |s.options| - i
  {
    if i < |s.options| {
      assert arr.elems[i] == EncodeEnum(s.options[i]);
      EnumRoundTrip(s.options[i], Null, reg);
      OptionsRoundTrip(s, arr, i + 1, reg);
      assert DecodeEnum(arr.elems[i], Null, reg) == Ok(s.options[i]);
      assert s.options[i..] == [s.options[i]] + s.options[i + 1..];
    } else {
      assert |arr.elems| == |s.options| && s.options[i..] == [];
      assert DecodeOptions(arr, i, reg) == Ok([]);
    }
  }

  // ---------------------------------------------------------------------
  // sample()

  /** What the distributions accept: a present handle everywhere, and
      lower bound not above the upper one. */
  predicate Samplable(e: Enum)
  {
    e.Spec? &&
    match e.spec
    case Uniform(lo, hi, _) => lo <= hi
    case UniformInt(lo, hi, _) => lo <= hi
    case Choose(opts, _) => forall k | 0 <= k < |opts| :: Samplable(opts[k])
    case _ => true
  }

  /** std::uniform_real_distribution draws from [lo, hi), or lo itself when lo == hi. */
  predicate InUniformRange(x: real, lo: real, hi: real)
  {
    lo <= x <= hi && (x == hi ==> lo == hi)
  }

  /** The values sample() can return: the constant itself; a real in
      [low, high) (just `low` when the interval is a point); an integer in
      [low, high]; "<empty>" for no options, else a value one option can
      return; anything for a run-time registered type. */
  ghost predicate IsSampleOf(e: Enum, v: Value)
  {
    e.Spec? &&
    match e.spec
    case Constant(val) => v == val
    case Uniform(lo, hi, _) => v.VDouble? && InUniformRange(v.d, lo, hi)
    case UniformInt(lo, hi, _) => v.VDouble? && v.d.Floor as real == v.d && lo as real <= v.d <= hi as real
    case Choose(opts, _) =>
      if |opts| == 0 then v == VString("<empty>")
      else exists k | 0 <= k < |opts| :: IsSampleOf(opts[k], v)
    case Registered(_) => true
  }

  /** sample(): draws one value.  Which value the generator picks is not
      modelled; the result is any value the distribution can produce. */
  method Sample(e: Enum) returns (v: Value)
    requires Samplable(e)
    ensures IsSampleOf(e, v)
    decreases e
  {
    match e.spec
    case Constant(val) =>
      v := val;
    case Uniform(lo, hi, _) =>
      assert InUniformRange(lo, lo, hi);
      var x: real :| InUniformRange(x, lo, hi);
      v := VDouble(x);
    case UniformInt(lo, hi, _) =>
      var n: int :| lo <= n <= hi;
      v := VDouble(n as real);
    case Choose(opts, _) =>
      if |opts| > 0 {
        var k :| 0 <= k < |opts|;
        v := Sample(opts[k]);
      } else {
        v := VString("<empty>");
      }
    case Registered(_) =>
      v := DefaultValue;
  }

  /** A Choose among constants yields one of them, or "<empty>" when it has none. */
  lemma {:induction false} ChooseOfConstants(opts: seq<Enum>, seed: uint32, v: Value)
    requires forall k | 0 <= k < |opts| :: opts[k].Spec? && opts[k].spec.Constant?
    requires IsSampleOf(Spec(Choose(opts, seed)), v)
    ensures |opts| == 0 ==> v == VString("<empty>")
    ensures |opts| > 0 ==> Among(v, seq(|opts|, k requires 0 <= k < |opts| => opts[k].spec.val))
  {
    if |opts| > 0 {
      var k :| 0 <= k < |opts| && IsSampleOf(opts[k], v);
      var vals := seq(|opts|, k requires 0 <= k < |opts| => opts[k].spec.val);
      assert vals[k] == v;
      AmongIsMembership(v, vals);
    }
  }
  /** What the sampling checks rely on: `dbl` of a uniform draw succeeds and
      the value is `within` the bounds, both inclusive. */
  lemma UniformSampleWithin(e: Enum, v: Value)
    requires e.Spec? && (e.spec.Uniform? || e.spec.UniformInt?)
    requires IsSampleOf(e, v)
    ensures Dbl(v).Ok?
    ensures e.spec.Uniform? ==> Within(Dbl(v).value, e.spec.low, e.spec.high)
    ensures e.spec.UniformInt? ==> Within(Dbl(v).value, e.spec.lowInt as real, e.spec.highInt as real)
  {
  }

  /** Why the seed is stored: a seeded generator read back through the codec
      seeds from the stored seed whatever the random device yields, and an
      unseeded one still defers to the device. */
  lemma SeedSurvivesCodec(e: Enum, reg: map<string, string>, device: uint32)
    requires CodecReady(e, reg)
    requires e.spec.Uniform? || e.spec.UniformInt? || e.spec.Choose?
    ensures Present(e) && DecodeEnum(EncodeEnum(e), Null, reg).Ok?
    ensures var d := DecodeEnum(EncodeEnum(e), Null, reg).value;
            d.Spec? && (d.spec.Uniform? || d.spec.UniformInt? || d.spec.Choose?) &&
            (e.spec.seed != Unseeded ==> GenSeed(d.spec.seed, device) == e.spec.seed) &&
            (e.spec.seed == Unseeded ==> GenSeed(d.spec.seed, device) == device)
  {
    EnumRoundTrip(e, Null, reg);
  }
}
