# Royale experiment runner — a verified Dafny model

Royale runs *experiments*: external programs that read one trial input (an
experiment name, a sample of named input values and a replicate tag) as JSON
on stdin, and print a trial output (a map from predicate names to booleans)
on stdout. An experiment states its command, working directory, environment
and one *value specification* per input. A value specification is a constant,
a uniform real range, a uniform integer range, or a choice among nested
specifications. A runner does four things:

- it samples the inputs and runs each trial locally or on a remote runner;
- it sorts the finished child into a trial status (Created, InProgress, Error or Complete);
- it keeps a registry of remote runners per experiment name and answers their requests;
- it can fit a logistic regression of each predicate against the samples.

This project models that core and proves properties of it:

| file | module | what it holds |
|---|---|---|
| `wrappers.dfy` | `Wrappers` | `Option`, `Result` and the C++ exceptions the core raises |
| `json.dfy` | `JsonTree` | the JSON tree, field lookup, and number conversions with truncation and 32-bit wrap-around |
| `util.dfy` | `Util` | C-string comparison, `ends_with`/`begins_with`/`within`/`among`, `std::string` order and `std::map` key order, `get_keys`, the `Value` variant and its JSON, the polymorphic tagged-object codec and the run-time constructor table |
| `value_spec.dfy` | `ValueSpecs` | the four value specifications, their JSON shorthand codec with round trips, `gen_seed`, and sampling as a nondeterministic draw from the documented range |
| `input_spec.dfy` | `Inputs` | `InputSpec` as a class: setters, `sample()` and the codec |
| `experiment.dfy` | `Experiments` | `Experiment` as a class: defaults, builder setters and the field-wise codec |
| `trial.dfy` | `Trials` | trial and analysis statuses, `TrialInput`, `Trial` and the `PredicateOutput` counters, all as classes |
| `registry.dfy` | `Registries` | `Registry`: the list of remotes plus the executor multimap, with register, lookup and remove |
| `runner.dfy` | `Runners` | `Runner`: `add_experiment`, `run_trial`, the `on_exit` classification and `handle_request` |
| `opts.dfy` | `Opts`, `ExecOrder` | `parse_host_port`, log-level clamping, the experiment-directory scan, the choice of trial source, and the order of `--exec`/`--repeat` results |
| `logistic_regression.dfy` | `LogisticRegression` | `do_analysis`: the predicate tally, the input matrix, the output rows and the coefficient maps; the regression itself is a parameter |

Ordered containers follow `std::map`: keys are visited in increasing
`std::string` order, which is modelled as `Util.StrLt` (lexicographic by
character code, a proper prefix first). Exceptions are `Err` values of
`Wrappers.Result`, and each names the C++ exception type the source throws.

## Model

| member | source | states |
|---|---|---|
| JsonTree.Field | include/royale/util.hpp:588-601 | `find(name)` succeeds exactly on an object that has the field, and yields that field's value |
| JsonTree.Trunc | include/royale/ValueSpec.hpp:219-224 | a double converted to an integer is truncated toward zero: within 1 below a non-negative input and within 1 above a negative one |
| JsonTree.WrapInt32 | include/royale/ValueSpec.hpp:169-174 | narrowing to `int` is congruent to the input modulo 2^32 and is the identity on values already in range |
| JsonTree.WrapUInt32 | include/royale/ValueSpec.hpp:104-107 | narrowing to `unsigned int` is congruent modulo 2^32 and the identity on values already in range |
| JsonTree.GetDouble | include/royale/ValueSpec.hpp:59-62 | `get<double>()` succeeds exactly on a number and yields it; any other kind is a type error |
| JsonTree.GetInt32 | include/royale/ValueSpec.hpp:219-224 | `get<int>()` succeeds exactly on a number or a boolean: a number yields its truncation, wrapped to 32 bits; `true` and `false` yield 1 and 0, through the library's general arithmetic conversion that `int` takes; anything else is a type error |
| JsonTree.GetUInt32 | include/royale/ValueSpec.hpp:171-174 | `get<unsigned>()` succeeds exactly on a number or a boolean: a number yields its truncation reduced modulo 2^32; `true` and `false` yield 1 and 0; anything else is a type error |
| JsonTree.GetString | include/royale/ValueSpec.hpp:63-64 | `get<std::string>()` succeeds exactly on a string and yields it |
| JsonTree.Int32RoundTrip | include/royale/ValueSpec.hpp:210-229 | an `int` range bound written to JSON and read back is unchanged |
| JsonTree.UInt32RoundTrip | include/royale/ValueSpec.hpp:171-174 | an `unsigned` seed written to JSON and read back is unchanged |
| Util.CStr | include/royale/util.hpp:842-852 | what a C routine sees of a string: a prefix that contains no NUL and stops at the first NUL |
| Util.NCmpEqualIsCStrEqual | include/royale/util.hpp:227-234 | `strncmp` over two equal-length spans reports equality exactly when the C strings they hold are equal |
| Util.NCmpEqualPlain | include/royale/util.hpp:227-234 | on text without NUL, `strncmp` equality is plain string equality |
| Util.EndsWith | include/royale/util.hpp:227-234 | false when the string is shorter than the suffix; otherwise true iff its last `suflen` characters hold the suffix as a C string, and on NUL-free text iff the suffix really ends the string |
| Util.BeginsWith | include/royale/util.hpp:267-274 | false when the string is shorter than the prefix; otherwise true iff its first `prelen` characters hold the prefix as a C string, and on NUL-free text iff the prefix really starts the string |
| Util.Within | include/royale/util.hpp:429-433 | true iff `min <= val <= max`; both bounds are inclusive (used by `ValueSpecs.UniformSampleWithin`) |
| Util.AmongIsMembership | include/royale/util.hpp:435-449 | `among` is true iff the value equals one of the candidates, so it is false with none |
| Util.Least | include/royale/util.hpp:451-462 | the key a `std::map` visits first: a member of the key set that is below every other key |
| Util.SortedKeys | include/royale/util.hpp:451-462 | the keys in map iteration order: exactly the map's keys, as many as the map has |
| Util.SortedKeysSorted | include/royale/util.hpp:451-462 | that order is strictly increasing, so each key appears once |
| Util.GetKeys | include/royale/util.hpp:451-462 | the `get_keys` loop returns every key of the map in iteration order, strictly increasing, with the map's size |
| Util.Dbl | include/royale/util.hpp:307-311 | `dbl` yields the double a `Value` holds, and raises `boost::bad_get` exactly when it holds a string |
| Util.EncodeValue | include/royale/util.hpp:1286-1289 | a double `Value` is written as a JSON number and a string `Value` as a JSON string |
| Util.DecodeValueInto | include/royale/util.hpp:1291-1298 | a number or a string replaces the `Value`; any other JSON leaves the prior value in place |
| Util.ValueRoundTrip | include/royale/util.hpp:1286-1298 | reading back a written `Value` restores it, whatever the target held before |
| Util.PolyEncode | include/royale/util.hpp:917-931 | an empty handle is written as null; otherwise as a one-key object under the type name, whose value is the payload, or `{}` when the payload is null |
| Util.PolyDispatch | include/royale/util.hpp:933-944 | null empties the handle; a string initialises that type from null; a one-key object initialises the key's type from its value; every other shape leaves the handle as it was |
| Util.PolyRoundTrip | include/royale/util.hpp:917-944 | decoding an encoded handle initialises the same type from the same payload (`{}` for a null payload), and an empty handle decodes to empty |
| Util.FirstIndex | include/royale/util.hpp:841-852 | the first position at or after `from` where the static type list holds the name, or none if it is not there |
| Util.Resolve | include/royale/util.hpp:781-860 | `init` picks the first static type whose name equals the C string, else a registered run-time type, else fails with "Tried to init JsonPolymorphic with unknown type: " followed by the name |
| Util.ConstructRegistry.Register | include/royale/util.hpp:781-786 | registering a name sets its constructor, and a later registration under the same name replaces the earlier one |
| ValueSpecs.GenSeed | include/royale/ValueSpec.hpp:86-93 | the sentinel seed -1U takes the random device's value; any other seed is used as is (see `ValueSpecs.SeedSurvivesCodec`) |
| ValueSpecs.SaveDirectValue | include/royale/ValueSpec.hpp:27-250 | `save_direct_value()` is true exactly for a `Constant` and for an unseeded `Choose` (lines 27, 47, 250) |
| ValueSpecs.EncodePayload | include/royale/ValueSpec.hpp:54-313 | each kind's own `to_json` (lines 54, 143, 210, 303): a constant as its value; an unseeded range as the bare `[low, high]` pair and a seeded one as `{range, seed}`; an unseeded `Choose` as an array with one element per option and a seeded one as `{options, seed}` |
| ValueSpecs.EncodeEnum | include/royale/ValueSpec.hpp:329-341 | writes the bare payload exactly when `SaveDirectValue` holds, and otherwise the one-key `{type name: payload}` object (`{}` for a null payload) |
| ValueSpecs.EncodeOptions | include/royale/ValueSpec.hpp:303-313 | an unseeded `Choose` is written as an array with one element per option |
| ValueSpecs.DecodeConstant | include/royale/ValueSpec.hpp:59-68 | a number or a string becomes the constant's value; otherwise the field-wise decode runs: a `val` field is read into the default value 0 (a number or a string replaces it, any other JSON keeps 0), and with no `val` field the default constant 0 remains |
| ValueSpecs.DecodeRange | include/royale/ValueSpec.hpp:101-107 | a range reads exactly from an array whose first two elements are numbers, and yields those two numbers |
| ValueSpecs.DecodeIntRange | include/royale/ValueSpec.hpp:169-174 | an integer range reads exactly from an array whose first two elements are numbers or booleans; each bound is that element's `get<int>()`, so a number is truncated and wrapped and a boolean is 1 or 0; a failure is a type error or, for a short array, out of range, in the order the elements are read |
| ValueSpecs.DecodeSeed | include/royale/ValueSpec.hpp:104-107 | an absent `seed` field leaves the sentinel -1U; a present one is read as `unsigned` |
| ValueSpecs.DecodeUniform | include/royale/ValueSpec.hpp:152-162 | a two-number array sets only the range and stays unseeded; otherwise it succeeds exactly when a present `range` and a present `seed` both read, and yields that range (default [0, 1]) and that seed (default -1U) |
| ValueSpecs.DecodeUniformInt | include/royale/ValueSpec.hpp:219-229 | a two-number array sets only the integer range, truncated and wrapped; otherwise it succeeds exactly when a present `range` and a present `seed` both read, and yields that integer range (default [0, 1]) and that seed (default -1U) |
| ValueSpecs.DecodeOptions | include/royale/ValueSpec.hpp:319-320 | decoding the options array from element `i` on yields one option per remaining element |
| ValueSpecs.DecodeOptionsMeaning | include/royale/ValueSpec.hpp:319-320 | the options read from element `i` on succeed exactly when every one of those elements reads into an empty handle, and option k is then element `i + k` read that way |
| ValueSpecs.ReadAllMeaning | include/royale/ValueSpec.hpp:319-320 | reads done front to back succeed exactly when each does, and then give their values in order |
| ValueSpecs.DecodeChoose | include/royale/ValueSpec.hpp:315-326 | a `Choose` decodes from an array as one option per element, with the seed left at the sentinel |
| ValueSpecs.InitSpec | include/royale/util.hpp:828-860 | an unknown type name raises the runtime_error naming it; a name registered at run time builds the registered type |
| ValueSpecs.DecodeEnum | include/royale/ValueSpec.hpp:347-378 | a number or a string is a `Constant`; an array is an unseeded `Choose`; null empties the handle; a boolean, or an object without exactly one key, leaves it as it was |
| ValueSpecs.ArrayIsChoose | include/royale/ValueSpec.hpp:315-370 | a JSON array, read as a `ValueSpec::Enum` or as a `Choose`, succeeds exactly when every element reads into an empty handle; it is then an unseeded `Choose` whose option k is element k read that way, and both reads agree |
| ValueSpecs.StaticResolves | include/royale/ValueSpec.hpp:18-21 | each built-in kind's name resolves to that kind |
| ValueSpecs.DecodeTagged | include/royale/util.hpp:933-944 | a one-key tagged object decodes by initialising the named type from its payload |
| ValueSpecs.EnumRoundTrip | include/royale/ValueSpec.hpp:329-378 | every specification whose handles are set and whose run-time types are registered survives being written and read back |
| ValueSpecs.UniformRoundTrip | include/royale/ValueSpec.hpp:143-162 | a `Uniform`, seeded or not, survives the `ValueSpec::Enum` round trip |
| ValueSpecs.UniformPayloadRoundTrip | include/royale/ValueSpec.hpp:143-162 | the bare `[low, high]` form or the field object read back as the same `Uniform` |
| ValueSpecs.UniformIntRoundTrip | include/royale/ValueSpec.hpp:210-229 | a `UniformInt` survives the `ValueSpec::Enum` round trip |
| ValueSpecs.UniformIntPayloadRoundTrip | include/royale/ValueSpec.hpp:210-229 | a `UniformInt`'s own payload reads back as the same object |
| ValueSpecs.ChooseRoundTrip | include/royale/ValueSpec.hpp:303-326 | a `Choose`, written as a bare array when unseeded and tagged when seeded, reads back unchanged |
| ValueSpecs.OptionsRoundTrip | include/royale/ValueSpec.hpp:303-326 | the encoded options array decodes back to the options from every position on |
| ValueSpecs.Sample | include/royale/ValueSpec.hpp:48-261 | `sample()` returns the constant itself, a real in the uniform range, an integer in `[low, high]`, a sample of one of a `Choose`'s options, or "<empty>" for a `Choose` without options |
| ValueSpecs.ChooseOfConstants | include/royale/ValueSpec.hpp:252-261 | a `Choose` among constants yields one of their values, or "<empty>" when it has none |
| ValueSpecs.UniformSampleWithin | tests/basic.cpp:126-130 | `dbl` of a `Uniform` or `UniformInt` draw succeeds and is `within` the bounds, as the sampling tests check |
| ValueSpecs.SeedSurvivesCodec | include/royale/ValueSpec.hpp:86-162 | a seeded `Uniform`, `UniformInt` or `Choose` written and read back seeds its generator from the stored seed whatever the random device yields; an unseeded one still takes the device's value |
| Inputs.InputSpec.constructor | include/royale/InputSpec.hpp:31 | a default `InputSpec` has no inputs |
| Inputs.InputSpec.FromMap | include/royale/InputSpec.hpp:32 | constructing from a map holds exactly that map |
| Inputs.InputSpec.SetInputs | include/royale/InputSpec.hpp:34 | `inputs(v)` replaces the whole map |
| Inputs.InputSpec.ExtendInputs | include/royale/InputSpec.hpp:38 | `extend_inputs()(key, spec)` adds the pair only when the key is new, and never overwrites an entry |
| Inputs.InputSpec.Sample | include/royale/InputSpec.hpp:40-49 | the sample has exactly the input names as keys, and each value is a sample of the specification under the same key |
| Inputs.EncodeInputs | include/royale/InputSpec.hpp:61-69 | the input map is written as a bare JSON object with the same keys, each holding its encoded specification |
| Inputs.DecodeEntriesMeaning | include/royale/InputSpec.hpp:71-79 | decoding the entries succeeds iff every entry decodes; the result has exactly those keys, and each entry is that decoded value |
| Inputs.DecodeInputs | include/royale/InputSpec.hpp:71-79 | anything other than an object is a type error; an object decodes iff every entry does, to a map with the same keys and the decoded specifications |
| Inputs.InputsRoundTrip | include/royale/InputSpec.hpp:61-79 | an input map survives being written and read back |
| Experiments.Experiment.constructor | include/royale/Experiment.hpp:22-30 | a default experiment has timeout 0, working directory ".", and empty name, version, command, environment and inputs |
| Experiments.Experiment.FromFields | include/royale/Experiment.hpp:22-30 | a copied experiment holds the given fields |
| Experiments.Experiment.SetName | include/royale/Experiment.hpp:33-37 | `name(n)` replaces only the name and returns the same experiment |
| Experiments.Experiment.SetCd | include/royale/Experiment.hpp:41-45 | `cd(c)` replaces only the working directory and returns the same experiment |
| Experiments.Experiment.SetCmd | include/royale/Experiment.hpp:49-57 | `cmd(args...)` stores one string per argument, in argument order, each the argument's conversion, and changes nothing else |
| Experiments.Experiment.SetEnv | include/royale/Experiment.hpp:73-80 | `env(e)` replaces only the environment |
| Experiments.Experiment.ExtendEnv | include/royale/Experiment.hpp:84 | `extend_env()(k, v)` adds a new variable and leaves an existing one, and everything else, unchanged |
| Experiments.Experiment.SetInputs | include/royale/Experiment.hpp:86-89 | `inputs(v)` replaces only the input map of the owned `InputSpec` |
| Experiments.Experiment.ExtendInputs | include/royale/Experiment.hpp:93-96 | `extend_inputs()` adds a new input only when its name is new |
| Experiments.DecodeStrings | include/royale/Experiment.hpp:27 | a command decodes iff it is an array of strings, and yields those strings in order |
| Experiments.DecodeStringMap | include/royale/Experiment.hpp:28 | an environment decodes iff it is an object of strings, and yields the same keys and strings |
| Experiments.DecodeField | include/royale/util.hpp:588-601 | an absent field keeps its prior value; a present one is converted |
| Experiments.DecodeExperiment | include/royale/Experiment.hpp:22-30 | the read succeeds exactly when each of the seven fields reads (absent, or present with the right kind: a string name, version and cd, a number timeout, an array of strings cmd, an object of strings env, decodable inputs); each field is then its own read, so absent fields keep their defaults (name "", cd ".", timeout 0, empty command and inputs); non-object JSON leaves a default experiment |
| Experiments.EncodeExperiment | include/royale/Experiment.hpp:22-30 | every one of the seven fields is written, under its own name |
| Experiments.EncodeStrings | include/royale/Experiment.hpp:27 | `cmd` is written as an array with one JSON string per argument, in order |
| Experiments.EncodeStringMap | include/royale/Experiment.hpp:28 | `env` is written as an object with the same keys, each holding its string value |
| Experiments.StringsRoundTrip | include/royale/Experiment.hpp:27 | a command survives being written and read back |
| Experiments.StringMapRoundTrip | include/royale/Experiment.hpp:28 | an environment survives being written and read back |
| Experiments.EncodedFields | include/royale/util.hpp:576-586 | each field is written under its name as its own encoding |
| Experiments.ExperimentRoundTrip | include/royale/Experiment.hpp:22-30 | an experiment survives being written and read back |
| Experiments.FromJson | src/runner/opts.cpp:87-91 | building an `Experiment` from JSON fails exactly when the decode fails, and otherwise holds the decoded fields in a new object |
| Trials.TrialStatus.Code | include/royale/Trial.hpp:51-99 | each status kind reports its own status code |
| Trials.FinalIsErrorOrComplete | include/royale/Trial.hpp:28-221 | a trial status or an analysis status is final exactly when it is Error or Complete |
| Trials.TrialInput.constructor | include/royale/TrialInput.hpp:27-33 | the constructor stores the name, the sample and the replicate |
| Trials.TrialInput.SetExperimentName | include/royale/TrialInput.hpp:36-40 | replaces only the experiment name |
| Trials.TrialInput.SetSample | include/royale/TrialInput.hpp:43-47 | replaces only the sample |
| Trials.TrialInput.SetReplicate | include/royale/TrialInput.hpp:50 | replaces only the replicate |
| Trials.Trial.constructor | include/royale/Trial.hpp:111-117 | a new trial has status Created and an empty input with a null replicate |
| Trials.Trial.Named | include/royale/Trial.hpp:119-121 | `Trial(name, sample)` is Created, with that name and sample and a null replicate |
| Trials.Trial.FromRecord | include/royale/Trial.hpp:111-114 | a trial read from a message holds that status and input |
| Trials.Trial.SetInput | include/royale/Trial.hpp:125-129 | `input(ti)` replaces the whole input |
| Trials.Trial.SetSample | include/royale/Trial.hpp:132-136 | `sample(s)` replaces only the input's sample |
| Trials.Trial.RaiseException | include/royale/Trial.hpp:138-142 | `exception(e)` sets the status to Error holding the exception |
| Trials.Trial.SetStatus | include/royale/Trial.hpp:145-149 | `status(s)` replaces the status |
| Trials.RatioBounds | include/royale/Trial.hpp:337-341 | the satisfied share lies in [0, 1], is positive once a trial is satisfied, and is 1 when all counted trials are |
| Trials.PredicateOutput.constructor | include/royale/Trial.hpp:314-321 | a new tally has every counter 0, `prob` 0 and `rel_error` 0 |
| Trials.PredicateOutput.AddSat | include/royale/Trial.hpp:331-335 | `sat_count` and `count` each rise by one and `error_count` stays; `prob` becomes `sat_count / (count - error_count)`, now in (0, 1]; `sat + error <= count` is kept |
| Trials.PredicateOutput.AddUnsat | include/royale/Trial.hpp:337-341 | only `count` rises by one; `prob` becomes the satisfied share of the trials that did not fail, in [0, 1] while `sat + error <= count` holds |
| Trials.PredicateOutput.AddError | include/royale/Trial.hpp:343-347 | `error_count` and `count` each rise by one, `sat_count` stays and `prob` is not recomputed; `sat + error <= count` is kept |
| Registries.Remote.constructor | include/royale/Runner.hpp:55-56 | a remote holds its stream and experiment names |
| Registries.Entries | include/royale/Runner.hpp:79-83 | the executors of a name, in registration order, are remotes that listed the name |
| Registries.Without | include/royale/Runner.hpp:104-115 | erasing a dead remote, from the remote list or from one equal range of the multimap, keeps exactly the other entries |
| Registries.EntriesAppend | include/royale/Runner.hpp:79-83 | registering a remote extends each name's range by that remote, once for each time it lists the name |
| Registries.EntriesWithout | include/royale/Runner.hpp:102-116 | after a removal each range is the old range with the dead remote's entries erased |
| Registries.RegisterStep | include/royale/Runner.hpp:79-83 | one turn of the registration loop adds the new remote at the end of one name's range |
| Registries.WithoutDistinct | include/royale/Runner.hpp:115 | the remote list still holds each remote once after a removal |
| Registries.EraseStep | include/royale/Runner.hpp:104-114 | one turn of the erase loop drops the dead remote from one key's range, and drops the key once its range is empty |
| Registries.ErasedIsIndex | include/royale/Runner.hpp:102-116 | after the erase loop the multimap indexes exactly the remaining remotes |
| Registries.Registry.constructor | include/royale/Runner.hpp:33-35 | a new registry has no remotes and no executors |
| Registries.Registry.Lookup | include/royale/Runner.hpp:88-100 | `lookup(name)` is the equal range of the name: the remotes registered under it, in registration order |
| Registries.Registry.RegisterRemote | include/royale/Runner.hpp:70-86 | appends one new remote with the given stream and names, leaves the earlier remotes untouched, and indexes it under every listed name |
| Registries.Registry.Remove | include/royale/Runner.hpp:102-116 | removes the dead remote from the list, keeping the others in order, and erases all of its executor entries, so no lookup yields it |
| Registries.Registry.EraseEntries | include/royale/Runner.hpp:104-114 | the loop over the multimap erases exactly the dead remote's entries |
| Registries.WithoutAll | include/royale/Runner.hpp:118-123 | removing the listed remotes one after another keeps exactly the remotes not listed |
| Registries.Registry.RemoveAll | include/royale/Runner.hpp:118-123 | the remote list afterwards equals removing each dead remote in turn (`WithoutAll`), so the survivors keep their order; it holds exactly the other remotes, and no lookup yields a dead one |
| Runners.Outcome | src/common/Runner.cpp:166-192 | a set error code gives Error(ErrorCode) whatever the exit status; otherwise a nonzero status gives Error(ExitStatus); otherwise parseable stdout gives Complete with that output and unparseable stdout gives Error(BadOutput); every result is final and carries the child's stderr |
| Runners.ErrorCodeWins | src/common/Runner.cpp:166-172 | with an error code set, neither the exit status nor the parsed stdout changes the outcome |
| Runners.Thrown | src/common/Runner.cpp:142-210 | an empty command throws `std::out_of_range` before any child exists; otherwise an exception is thrown iff starting the child fails |
| Runners.OnExit | src/common/Runner.cpp:151-199 | `on_exit` sets the trial's status to the classified outcome and calls the handler exactly once, with the trial |
| Runners.ExecExperiment | src/common/Runner.cpp:119-212 | a throw before the child starts leaves the trial alone and never calls the handler; otherwise the handler is called once with the classified trial |
| Runners.RemoteResult | src/common/Runner.cpp:61-84 | a TrialDone answer yields its trial; any other message throws "Unexpected message type: " followed by its type name |
| Runners.Served | src/common/Runner.cpp:317-344 | the RunTrial reply (as intended) keeps the trial's input and has a final status: UnknownExperiment for an unknown name, Error holding the exception when the run throws, otherwise the classified outcome |
| Runners.ServedAsWritten | src/common/Runner.cpp:321-339 | the reply the code builds has the intended status, but after a throw its input is the moved-from one |
| Runners.AsWrittenReplyLosesInput | src/common/Runner.cpp:321-332 | for a known experiment with an empty command, the reply as written has an empty name and sample where the intended reply keeps the request's input |
| Runners.ServedAgreesWithoutThrow | src/common/Runner.cpp:317-344 | when nothing is thrown the reply as written equals the intended one |
| Runners.Runner.constructor | include/royale/Runner.hpp:220-295 | a new runner has no experiments, no remote, `pretty` -1, `cd` "" and an empty registry |
| Runners.Runner.Connected | include/royale/Runner.hpp:283 | `connected()` is true exactly when a remote stream is set; `RunTrial` sends to the remote exactly then (absent an explicit stream) |
| Runners.Runner.SetRemote | include/royale/Runner.hpp:283-289 | `remote(stream)` makes `connected()` true with that stream and changes nothing else |
| Runners.Runner.AddExperiment | src/common/Runner.cpp:11-33 | an empty name throws "Can't add experiment without name" and a present name throws "Experiment already added", both leaving the map unchanged; otherwise it adds exactly one entry, a new copy of the experiment under its name, and returns it |
| Runners.Runner.RunTrial | src/common/Runner.cpp:86-117 | an unknown name throws `std::out_of_range`; otherwise the trial is Created, named `name`, with one sampled value per input; a given stream or a set remote returns the remote's answer; otherwise the local run's exception or its classified trial |
| Runners.Runner.ServeTrial | src/common/Runner.cpp:317-344 | the RunTrial branch replies with the intended reply for the runner's experiments |
| Runners.Runner.HandleRequest | src/common/Runner.cpp:310-374 | returns false only for Register, which appends one remote with the request's names; RunTrial and RunBatch reply; TrialDone and BatchDone throw "Unexpected message type" followed by the message's `virt_type_name()` (`Runners.Message.TypeName`). A RunBatch on a runner without a remote of its own removes the remotes whose `run_trial` threw, in turn (`Registries.WithoutAll`), so no lookup yields them afterwards (lines 274-304); RunTrial, TrialDone, BatchDone and a RunBatch forwarded to the runner's remote leave the registry unchanged. The RunTrial reply it states is the corrected `Runners.Served` one, not the moved-from reply the code sends (see Findings) |
| Opts.RFind | src/runner/opts.cpp:22 | `rfind(':')` finds nothing iff there is no ':', and otherwise the last ':' |
| Opts.ParseHostPort | src/runner/opts.cpp:19-31 | without ':' the host is the default and the whole text is the port; with one, host + ":" + port is the text and the port has no ':' |
| Opts.HostPortSplitUnique | src/runner/opts.cpp:19-31 | any split of the text into host ":" port with a colon-free port is the one returned, so it splits at the last ':' |
| Opts.ClampLogLevel | src/runner/opts.cpp:39-55 | the level is clamped into [ROYALE_LOG_MIN, ROYALE_LOG_MAX], with a warning exactly when it was outside; the logger level is 6 minus the level |
| Opts.InDirectory | src/runner/opts.cpp:103-106 | a loaded experiment with cd "" gets the directory as cd; any other cd stays, and no other field changes |
| Opts.AddJson | src/runner/opts.cpp:87-91 | `add_str` adds the decoded experiment exactly when it decodes with a new non-empty name; on failure the runner's map is unchanged |
| Opts.Loads | src/runner/opts.cpp:101-106 | a directory entry loads an experiment exactly when its path ends with ".experiment.json" and its content decodes |
| Opts.LoadEntry | src/runner/opts.cpp:101-109 | a file whose path does not end with `.experiment.json` is skipped and leaves the map alone; an experiment file succeeds exactly when it decodes to a non-empty name not yet in the runner, and then adds that experiment, with the directory as its cd when it names none; a failure leaves the map alone |
| Opts.ScannedNamesStep | src/runner/opts.cpp:99-111 | one turn of the scan adds the entry's name only when the entry is an experiment file |
| Opts.ScannedStatesStep | src/runner/opts.cpp:99-111 | one turn of the scan keeps every earlier experiment's fields |
| Opts.LoadStep | src/runner/opts.cpp:101-110 | one turn of the scan keeps the two scan invariants |
| Opts.LoadDirectory | src/runner/opts.cpp:99-111 | the scan succeeds exactly when every experiment file decodes to a non-empty name held neither by the runner beforehand nor by an earlier experiment file (`Opts.ScanSucceeds`); after a successful scan the runner holds exactly the earlier experiments plus one per experiment file, each with its decoded fields and the cd default |
| Opts.SelectSource | src/runner/opts.cpp:187-220 | `--input` wins, then `--remote`; `--batch` with neither throws "bad command line options"; otherwise trials run locally |
| ExecOrder.Copies | src/runner/opts.cpp:155 | `repeat` copies of the name, none when `repeat` is not positive |
| ExecOrder.CallsShape | src/runner/opts.cpp:154-166 | the calls are `runs × repeat` long, and the i-th repetition of the k-th run sits at position k·repeat + i |
| ExecOrder.ResultsSnoc | src/runner/opts.cpp:154-166 | one more call appends its trial, or its batch's trials, unless an earlier call failed; a failing call ends the results with its exception |
| ExecOrder.ResultsErrExtends | src/runner/opts.cpp:154-166 | once some prefix of the calls fails, every longer sequence of calls gives the same failure |
| ExecOrder.SingleResults | src/runner/opts.cpp:161-164 | without `--batch` and without failures, the j-th result is the j-th call's trial |
| ExecOrder.FailureStops | src/runner/opts.cpp:154-166 | a failure during the calls for `runs[k]` is the outcome of the whole loop |
| ExecOrder.ExecOne | src/runner/opts.cpp:156-164 | one call appends `run_trial`'s trial or `run_batch`'s trials, or reports the exception it throws |
| ExecOrder.RepeatFailureStops | src/runner/opts.cpp:155-165 | a failure in one repetition is the outcome of all of that run's repetitions |
| ExecOrder.ExecRepeats | src/runner/opts.cpp:155-165 | the inner loop yields the results of all `repeat` calls for one run, or the first failure |
| ExecOrder.ExecRuns | src/runner/opts.cpp:143-171 | nothing is started when no experiment is named; otherwise the results are those of the calls in run-then-repetition order |
| ExecOrder.ExecOrder | src/runner/opts.cpp:152-166 | without `--batch` and without failures there are `runs × repeat` trials, ordered by run and then by repetition |
| LogisticRegression.ReportedNamesMeaning | src/common/LogisticRegression.cpp:22-26 | a predicate name gets a tally entry iff some complete trial reports it |
| LogisticRegression.CompletesMeaning | src/common/LogisticRegression.cpp:18-38 | the kept trials are exactly the Complete ones, each as its input and output |
| LogisticRegression.ReportsBounds | src/common/LogisticRegression.cpp:22-34 | a predicate is reported true at most as often as it is reported, and that at most once per complete trial; it is reported iff it is a tallied name |
| LogisticRegression.ReportsAll | src/common/LogisticRegression.cpp:22-34 | a predicate is reported once per complete trial iff every complete trial reports it |
| LogisticRegression.Ensure | src/common/LogisticRegression.cpp:26 | `preds[name]` gives the entry for the name, creating a zeroed one when it is missing, and leaves the other entries alone |
| LogisticRegression.Bump | src/common/LogisticRegression.cpp:26-33 | a true value counts one more satisfied report and a false one one more unsatisfied report, on that predicate's entry only |
| LogisticRegression.Visit | src/common/LogisticRegression.cpp:22-34 | one predicate of a trial is tallied and the rest of the tally is kept |
| LogisticRegression.VisitAll | src/common/LogisticRegression.cpp:22-34 | the predicate loop of one trial tallies each of its predicates once |
| LogisticRegression.TallyOutput | src/common/LogisticRegression.cpp:20-35 | tallying one more complete trial gives the tally of the longer trial list |
| LogisticRegression.Tally | src/common/LogisticRegression.cpp:16-40 | keeps the complete trials in order; the tally has one entry per reported name, with `count` the complete trials reporting it, `sat_count` those reporting true, `error_count` 0, and `prob` their ratio |
| LogisticRegression.SampleValues | src/common/LogisticRegression.cpp:49-53 | a sample's values in key order, one per key |
| LogisticRegression.ColumnOf | src/common/LogisticRegression.cpp:47-53 | a built column always has one cell per matrix row |
| LogisticRegression.ColumnMeaning | src/common/LogisticRegression.cpp:47-53 | a column is built iff the sample fits the rows and holds only doubles; each cell is its value, and the error is `bad_get` exactly when a string is reached first |
| LogisticRegression.ColumnStops | src/common/LogisticRegression.cpp:49-53 | the first failing cell decides the column's error |
| LogisticRegression.TrialColumn | src/common/LogisticRegression.cpp:47-54 | a built trial column has one cell per matrix row |
| LogisticRegression.Collect | src/common/LogisticRegression.cpp:46-55 | the column loop over the trials stops at the first failing column |
| LogisticRegression.CollectMeaning | src/common/LogisticRegression.cpp:46-55 | the columns are collected iff each one is built, and then in trial order |
| LogisticRegression.CollectError | src/common/LogisticRegression.cpp:46-55 | a failure is the error of the first column that fails |
| LogisticRegression.CollectStops | src/common/LogisticRegression.cpp:46-55 | once a prefix of the columns fails, so does every longer list |
| LogisticRegression.TrialColumns | src/common/LogisticRegression.cpp:46-55 | one column per complete trial, built from that trial's sample |
| LogisticRegression.InputMatrix | src/common/LogisticRegression.cpp:43-55 | a built matrix has one column per trial and one row per sample key of the first trial |
| LogisticRegression.MatrixMeaning | src/common/LogisticRegression.cpp:43-55 | the matrix is built iff every trial's column is, with those columns as its values; otherwise the first failing column's error |
| LogisticRegression.StringSampleFails | src/common/LogisticRegression.cpp:48-55 | a string sample value in a complete trial within the matrix makes the build throw |
| LogisticRegression.FillColumn | src/common/LogisticRegression.cpp:48-53 | the row loop fills column `col` with the trial's column and leaves the others, or throws that column's error |
| LogisticRegression.AddColumn | src/common/LogisticRegression.cpp:46-55 | one turn of the column loop extends the filled prefix, or throws the error of the whole matrix |
| LogisticRegression.BuildInputs | src/common/LogisticRegression.cpp:43-55 | the `inputs` matrix is a new `rows × trials` array holding the input matrix, or the build throws exactly the input matrix's error |
| LogisticRegression.Columns | src/common/LogisticRegression.cpp:43 | reading a matrix column by column gives what it holds |
| LogisticRegression.ColumnsUnique | src/common/LogisticRegression.cpp:43 | a matrix holds one list of columns only |
| LogisticRegression.OutputsNeedEveryTrial | src/common/LogisticRegression.cpp:57-66 | a predicate's output row is built iff it is reported once per complete trial, and then holds its value in each trial; otherwise `at` throws `std::out_of_range` |
| LogisticRegression.PredOutputs | src/common/LogisticRegression.cpp:58-66 | the output row loop builds the row, or throws `std::out_of_range` at the first trial that lacks the predicate |
| LogisticRegression.Coefficients | src/common/LogisticRegression.cpp:72-80 | the coefficient keys are "" plus every sample key of the first complete trial; the j-th key in order gets parameter j + 1, and "" gets the intercept unless it is itself a sample key |
| LogisticRegression.Fit | src/common/LogisticRegression.cpp:57-81 | one predicate's coefficients come from regressing the matrix on its output row, or the row's `std::out_of_range` |
| LogisticRegression.FitAll | src/common/LogisticRegression.cpp:57-81 | every tallied predicate gets its coefficients iff every one's output row is built; otherwise `std::out_of_range` |
| LogisticRegression.Rows | src/common/LogisticRegression.cpp:43 | the matrix has one row per sample key of the first complete trial |
| LogisticRegression.DoAnalysis | src/common/LogisticRegression.cpp:10-84 | with no complete trial it returns the tally with no coefficients; otherwise it succeeds iff the matrix builds and every tallied predicate is reported by every complete trial, the error being the matrix's or `std::out_of_range`, and each predicate's coefficients come from its own row |
| LogisticRegression.RowsNeedSamePreds | src/common/LogisticRegression.cpp:57-66 | every output row is built iff all complete trials report the same set of predicates |

## Left out

- Randomness: `mt19937_64`, `random_device` and the distributions are not modelled. `ValueSpecs.Sample` draws nondeterministically from the documented range, and `ValueSpecs.GenSeed` takes the device's value as a parameter.
- ValueSpecs.Sample: the seeded sequences of values are not modelled, only the range each draw lies in.
- Networking and coroutines are not modelled: `connect_to`, `launch_listener`, `register_with`, `send_message`/`get_message`, `CoroutineWaiter` and `do_async_func`. An answer read from a stream is a parameter (`answer` in `Runners.Runner.RunTrial`).
- Runners.Runner.HandleRequest: the `run_batch` fan-out over registered remotes is not modelled. The batch a RunBatch request replies with and the remotes found dead during it are parameters (`batch`, `deads`); the dead remotes are required to be distinct entries of the experiment's lookup, and their removal through `Registries.Registry.RemoveAll` is modelled. An exception `run_batch` throws when it forwards to the runner's own remote is not modelled. Its RunTrial reply is the corrected one recorded under Findings, not the moved-from trial the code sends.
- ValueSpecs.InitSpec: a type added with `register_runtime_construct` is modelled as `Registered(typeName)` with no fields, so its JSON payload is ignored when read. The source's run-time types keep their own fields and their own `from_json`; only the field-less types of the tests match the model.
- ValueSpecs.EncodePayload: a `Registered` value is written as null, so `ValueSpecs.EncodeEnum` writes `{}` for it; a run-time type with fields would write them through its own `to_json`.
- ValueSpecs.Sample: a `Registered` value may sample to any value, because the run-time type's own `sample()` is not modelled.
- ValueSpecs.Sample: it requires `Samplable`, that is, every handle set and `low <= high` in every range. The source calls `sample()` on whatever was decoded; a reversed range breaks the precondition of `std::uniform_*_distribution` and an empty handle is a null dereference, both undefined behaviour, which the model does not describe.
- Inputs.InputSpec.Sample: it requires every spec in the map to be `Samplable`, for the same reason; so does `Runners.Runner.RunTrial` for the experiment it samples.
- Process spawning is not modelled: `bp::child`, `search_path`, the stream buffers and the stdin JSON. What starting a child comes to (a throw, or an exit report) is the parameter `Spawn`, and parsing stdout is the parameter `parse`.
- JSON text is not modelled: `json::parse` and `dump` are left out, and codecs work on the `JsonTree.Json` tree. Messages and trial statuses are datatypes; their own JSON encoding is not modelled.
- Experiments.Experiment.SetCmd: `boost::lexical_cast` is the parameter `show`.
- Numbers: doubles are modelled as exact reals, so rounding is not modelled.
- Trials.PredicateOutput.AddUnsat: `prob` is the exact ratio rather than the rounded double quotient.
- Trials.PredicateOutput.AddSat: the `size_t` counters are unbounded, so their wrap-around is not modelled.
- JsonTree.GetInt32: a number outside the 32-bit range is wrapped around modulo 2^32 (`JsonTree.WrapInt32`, `JsonTree.WrapUInt32`, also for `JsonTree.GetUInt32`). That is a choice of the model: in C++, converting an out-of-range double to `int` or `unsigned int` is undefined behaviour, and narrowing a 64-bit integer to `int` is implementation-defined, so the source promises nothing for such values.
- Registries.Registry.RemoveAll: it requires the dead remotes to be distinct and registered. With a repeated entry the source would erase the same list iterator twice, which is undefined behaviour.
- Opts.ClampLogLevel: ROYALE_LOG_MAX (6, 5 or 4 by build) is the parameter `logMax`, and ROYALE_LOG_MIN is 0.
- Opts.LoadDirectory: the directory listing is a parameter. Its order is whatever `fs::directory_iterator` yields, and reading a file (`file_to_string`) is replaced by the entry's JSON content. The ghost parameters `loads` and `files` only name what each entry loads.
- Opts.AddJson: the `--file` and `--json` loops are not modelled separately; each is a sequence of `add_str` calls.
- ExecOrder.ExecRuns: the coroutine it is spawned on and the `use_results` callback (printing and `Analysis::run`) are not modelled. The loop's results are returned instead.
- Option parsing is not modelled: cxxopts, `--help` with `std::exit`, `chdir` for `--cd`, `main.cpp`, `util.cpp` (`errchk_throw`, `file_to_string`) and all logging.
- The triangle example executor is not modelled; it is floating-point trigonometry.
- LogisticRegression.DoAnalysis: the mlpack regression is the parameter `regress`, which is required to return one parameter per matrix row plus the intercept. The matrix is handed to it as a list of columns.
- LogisticRegression.BuildInputs: the matrix starts zero-filled, so cells a short sample leaves unset are 0 rather than whatever Armadillo's constructor leaves. Armadillo's bounds check on a sample longer than the first is modelled as an `IndexOutOfBounds` error; builds with `ARMA_NO_DEBUG` would skip it.
- LogisticRegression.PredOutputs: the output row is modelled as booleans rather than the `size_t` 0/1 values of `arma::Row<size_t>`.
- LogisticRegression.DoAnalysis: each `LogisticPredicateOutput` is modelled as its `PredicateOutput` tally plus an entry of a separate coefficient map. Its `name` stays "", as the default-constructed entry leaves it.

## Findings

| source | as written | input that shows it | evidently intended | confidence | as-written member | corrected member |
|---|---|---|---|---|---|---|
| src/common/Runner.cpp:321-339 | the RunTrial handler moves the request's trial into `exec_experiment` (line 326), and the catch blocks then set the exception on that moved-from `trial` and send it back | a RunTrial for a known experiment whose command is empty: `cmd.at(0)` throws, and the reply carries an empty input (no experiment name, no sample) | the reply keeps the request's input and records the exception as its status | not executed | Runners.ServedAsWritten (shown by Runners.AsWrittenReplyLosesInput) | Runners.Served |
