// include/royale/Experiment.hpp: how to run one experiment program and
// which inputs to sample for it.
module Experiments {
  import opened Wrappers
  import opened JsonTree
  import opened Util
  import opened ValueSpecs
  import opened Inputs

  /** The serialised fields of an Experiment, in declaration order. */
  datatype ExperimentFields = ExperimentFields(
    name: string,
    version: string,
    timeout: real,
    cd: string,
    cmd: seq<string>,
    env: map<string, string>,
    input: map<string, Enum>)

  /** A default-constructed Experiment: timeout 0 and working directory ".". */
  const DefaultFields: ExperimentFields :=
    ExperimentFields("", "", 0.0, ".", [], map[], map[])

  class Experiment {
    var name: string
    var version: string
    var timeout: real
    var cd: string
    var cmd: seq<string>
    var env: map<string, string>
    const inputs: InputSpec

    function State(): ExperimentFields
      reads this, inputs
    {
      ExperimentFields(name, version, timeout, cd, cmd, env, inputs.input)
    }

    constructor ()
      ensures State() == DefaultFields
      ensures fresh(inputs)
    {
      name := "";
      version := "";
      timeout := 0.0;
      cd := ".";
      cmd := [];
      env := map[];
      inputs := new InputSpec();
    }

    /** Builds an experiment holding the given fields (the copy made by
        the copy constructor, or the result of from_json). */
    constructor FromFields(f: ExperimentFields)
      ensures State() == f
      ensures fresh(inputs)
    {
      name := f.name;
      version := f.version;
      timeout := f.timeout;
      cd := f.cd;
      cmd := f.cmd;
      env := f.env;
      inputs := new InputSpec.FromMap(f.input);
    }

    /** name(n): replaces the name and returns the same experiment. */
    method SetName(n: string) returns (self: Experiment)
      modifies this
      ensures self == this
      ensures State() == old(State()).(name := n)
    {
      name := n;
      self := this;
    }

    /** cd(c): replaces the working directory. */
    method SetCd(c: string) returns (self: Experiment)
      modifies this
      ensures self == this
      ensures State() == old(State()).(cd := c)
    {
      cd := c;
      self := this;
    }

    /** cmd(args...): one command element per argument, each converted
        to text by `show` (boost::lexical_cast); cmd(list) and cmd(vector)
        are the case where `show` is the identity. */
    method SetCmd<A>(args: seq<A>, show: A -> string) returns (self: Experiment)
      modifies this
      ensures self == this
      ensures |cmd| == |args|
      ensures forall i | 0 <= i < |args| :: cmd[i] == show(args[i])
      ensures State() == old(State()).(cmd := cmd)
    {
      cmd := seq(|args|, i requires 0 <= i < |args| => show(args[i]));
      self := this;
    }

    /** env(e): replaces the environment map. */
    method SetEnv(e: map<string, string>) returns (self: Experiment)
      modifies this
      ensures self == this
      ensures State() == old(State()).(env := e)
    {
      env := e;
      self := this;
    }

    /** extend_env()(key, value): emplace, so an existing variable keeps its value. */
    method ExtendEnv(key: string, value: string) returns (self: Experiment)
      modifies this
      ensures self == this
      ensures key in old(env) ==> State() == old(State())
      ensures key !in old(env) ==> State() == old(State()).(env := old(env)[key := value])
    {
      if key !in env {
        env := env[key := value];
      }
      self := this;
    }

    /** inputs(v): replaces the input map of the owned InputSpec. */
    method SetInputs(v: map<string, Enum>) returns (self: Experiment)
      modifies inputs
      ensures self == this
      ensures State() == old(State()).(input := v)
    {
      inputs.SetInputs(v);
      self := this;
    }

    /** extend_inputs()(key, spec): emplace into the owned InputSpec. */
    method ExtendInputs(key: string, spec: Enum) returns (self: Experiment)
      modifies inputs
      ensures self == this
      ensures key in old(inputs.input) ==> State() == old(State())
      ensures key !in old(inputs.input) ==> State() == old(State()).(input := old(inputs.input)[key := spec])
    {
      inputs.ExtendInputs(key, spec);
      self := this;
    }
  }

  // ---------------------------------------------------------------------
  // JSON

  /** `get<std::vector<std::string>>()`. */
  function DecodeStrings(j: Json): (r: Result<seq<string>>)
    ensures r.Ok? <==> j.JArr? && forall i | 0 <= i < |j.elems| :: j.elems[i].JStr?
    ensures r.Ok? ==> |r.value| == |j.elems| && forall i | 0 <= i < |j.elems| :: r.value[i] == j.elems[i].s
  {
    if j.JArr? && forall i | 0 <= i < |j.elems| :: j.elems[i].JStr? then
      Ok(seq(|j.elems|, i requires 0 <= i < |j.elems| => j.elems[i].s))
    else Err(JsonTypeError)
  }

  /** `get<std::map<std::string, std::string>>()`. */
  function DecodeStringMap(j: Json): (r: Result<map<string, string>>)
    ensures r.Ok? <==> j.JObj? && forall k | k in j.fields :: j.fields[k].JStr?
    ensures r.Ok? ==> r.value.Keys == j.fields.Keys && forall k | k in j.fields :: r.value[k] == j.fields[k].s
  {
    if j.JObj? && forall k | k in j.fields :: j.fields[k].JStr? then
      Ok(map k | k in j.fields :: j.fields[k].s)
    else Err(JsonTypeError)
  }

  /** One field read: an absent field keeps `prior`, a present one is
      converted by `get`. */
  function DecodeField<T>(j: Json, name: string, prior: T, get: Json -> Result<T>): (r: Result<T>)
    ensures Field(j, name).None? ==> r == Ok(prior)
    ensures Field(j, name).Some? ==> r == get(j.fields[name])
  {
    match Field(j, name)
    case None => Ok(prior)
    case Some(v) => get(v)
  }

  /** from_json of an Experiment: each field in declaration order is read
      if present and otherwise keeps its default. */
  function DecodeExperiment(j: Json, reg: map<string, string>): (r: Result<ExperimentFields>)
    ensures r.Ok? && Field(j, "name").None? ==> r.value.name == ""
    ensures r.Ok? && Field(j, "cd").None? ==> r.value.cd == "."
    ensures r.Ok? && Field(j, "timeout").None? ==> r.value.timeout == 0.0
    ensures r.Ok? && Field(j, "cmd").None? ==> r.value.cmd == []
    ensures r.Ok? && Field(j, "input").None? ==> r.value.input == map[]
    ensures r.Ok? && Field(j, "cd").Some? ==> j.fields["cd"] == JStr(r.value.cd)
    ensures r.Ok? && Field(j, "name").Some? ==> j.fields["name"] == JStr(r.value.name)
    ensures !j.JObj? ==> r == Ok(DefaultFields)
    ensures r.Ok? <==>
              && DecodeField(j, "name", "", GetString).Ok?
              && DecodeField(j, "version", "", GetString).Ok?
              && DecodeField(j, "timeout", 0.0, GetDouble).Ok?
              && DecodeField(j, "cd", ".", GetString).Ok?
              && DecodeField(j, "cmd", [], DecodeStrings).Ok?
              && DecodeField(j, "env", map[], DecodeStringMap).Ok?
              && DecodeField(j, "input", map[], (v: Json) => DecodeInputs(v, reg)).Ok?
    ensures r.Ok? ==> r.value == ExperimentFields(
              DecodeField(j, "name", "", GetString).value,
              DecodeField(j, "version", "", GetString).value,
              DecodeField(j, "timeout", 0.0, GetDouble).value,
              DecodeField(j, "cd", ".", GetString).value,
              DecodeField(j, "cmd", [], DecodeStrings).value,
              DecodeField(j, "env", map[], DecodeStringMap).value,
              DecodeField(j, "input", map[], (v: Json) => DecodeInputs(v, reg)).value)
  {
    var d := DefaultFields;
    var name :- DecodeField(j, "name", d.name, GetString);
    var version :- DecodeField(j, "version", d.version, GetString);
    var timeout :- DecodeField(j, "timeout", d.timeout, GetDouble);
    var cd :- DecodeField(j, "cd", d.cd, GetString);
    var cmd :- DecodeField(j, "cmd", d.cmd, DecodeStrings);
    var env :- DecodeField(j, "env", d.env, DecodeStringMap);
    var input :- DecodeField(j, "input", d.input, (v: Json) => DecodeInputs(v, reg));
    Ok(ExperimentFields(name, version, timeout, cd, cmd, env, input))
  }

  /** to_json of an Experiment: every field, always. */
  function EncodeExperiment(f: ExperimentFields): (j: Json)
    requires forall k | k in f.input :: Present(f.input[k])
    ensures j.JObj? && j.fields.Keys == {"name", "version", "timeout", "cd", "cmd", "env", "input"}
  {
    JObj(map[
      "name" := JStr(f.name),
      "version" := JStr(f.version),
      "timeout" := JNum(f.timeout),
      "cd" := JStr(f.cd),
      "cmd" := EncodeStrings(f.cmd),
      "env" := EncodeStringMap(f.env),
      "input" := EncodeInputs(f.input)])
  }

  function EncodeStrings(c: seq<string>): (j: Json)
    ensures j.JArr? && |j.elems| == |c| && forall i | 0 <= i < |c| :: j.elems[i] == JStr(c[i])
  {
    JArr(seq(|c|, i requires 0 <= i < |c| => JStr(c[i])))
  }

  lemma StringsRoundTrip(c: seq<string>)
    ensures DecodeStrings(EncodeStrings(c)) == Ok(c)
  {
    var a := EncodeStrings(c);
    var r := DecodeStrings(a);
    assert r.Ok?;
    assert r.value == c;
  }

  function EncodeStringMap(m: map<string, string>): (j: Json)
    ensures j.JObj? && j.fields.Keys == m.Keys && forall k | k in m :: j.fields[k] == JStr(m[k])
  {
    JObj(map k | k in m :: JStr(m[k]))
  }

  lemma StringMapRoundTrip(m: map<string, string>)
    ensures DecodeStringMap(EncodeStringMap(m)) == Ok(m)
  {
    var r := DecodeStringMap(EncodeStringMap(m));
    assert r.Ok?;
    assert r.value == m;
  }

  lemma EncodedFields(f: ExperimentFields)
    requires forall k | k in f.input :: Present(f.input[k])
    ensures var j := EncodeExperiment(f);
      && Field(j, "name") == Some(JStr(f.name))
      && Field(j, "version") == Some(JStr(f.version))
      && Field(j, "timeout") == Some(JNum(f.timeout))
      && Field(j, "cd") == Some(JStr(f.cd))
      && Field(j, "cmd") == Some(EncodeStrings(f.cmd))
      && Field(j, "env") == Some(EncodeStringMap(f.env))
      && Field(j, "input") == Some(EncodeInputs(f.input))
  {
  }

  /** An experiment written to JSON and read back has the same fields. */
  lemma ExperimentRoundTrip(f: ExperimentFields, reg: map<string, string>)
    requires forall k | k in f.input :: CodecReady(f.input[k], reg)
    ensures (forall k | k in f.input :: Present(f.input[k]))
      && DecodeExperiment(EncodeExperiment(f), reg) == Ok(f)
  {
    InputsRoundTrip(f.input, reg);
    StringsRoundTrip(f.cmd);
    EncodedFields(f);
    var j := EncodeExperiment(f);
    var d := DefaultFields;
    StringMapRoundTrip(f.env);
    assert DecodeField(j, "cmd", d.cmd, DecodeStrings) == Ok(f.cmd);
    assert DecodeField(j, "env", d.env, DecodeStringMap) == Ok(f.env);
    assert DecodeField(j, "input", d.input, (v: Json) => DecodeInputs(v, reg)) == Ok(f.input);
  }

  /** from_json into a new Experiment object. */
  method FromJson(j: Json, reg: map<string, string>) returns (r: Result<Experiment>)
    ensures r.Ok? <==> DecodeExperiment(j, reg).Ok?
    ensures r.Ok? ==> fresh(r.value) && fresh(r.value.inputs) && r.value.State() == DecodeExperiment(j, reg).value
    ensures r.Err? ==> r.error == DecodeExperiment(j, reg).error
  {
    var f := DecodeExperiment(j, reg);
    if f.Err? {
      return Err(f.error);
    }
    var e := new Experiment.FromFields(f.value);
    r := Ok(e);
  }
}
