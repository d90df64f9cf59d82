// The command-line logic of src/runner/opts.cpp: splitting "host:port",
// clamping the log level, loading experiment files, ordering the results of
// --exec and --repeat, and the --batch option check.
module Opts {
  import opened Wrappers
  import opened JsonTree
  import opened Util
  import opened Experiments
  import opened Trials
  import opened Runners

  const ExperimentJsonExtension: string := ".experiment.json"
  const DefaultHost: string := "localhost"

  /** rfind(c): the index of the last `c` in `s`, if any. */
  function RFind(s: string, c: char): (r: Option<nat>)
    ensures r.None? <==> c !in s
    ensures r.Some? ==> r.value < |s| && s[r.value] == c && c !in s[r.value + 1..]
  {
    if s == [] then None
    else if s[|s| - 1] == c then Some(|s| - 1)
    else
      var r := RFind(s[..|s| - 1], c);
      if r.Some? then
        assert s[r.value + 1..] == s[..|s| - 1][r.value + 1..] + [s[|s| - 1]];
        r
      else r
  }

  /** parse_host_port: without a ':' the whole text is the port on the
      default host; otherwise the text splits at the last ':'. */
  function ParseHostPort(text: string, defaultHost: string): (r: (string, string))
    ensures ':' !in text ==> r == (defaultHost, text)
    ensures ':' in text ==> r.0 + ":" + r.1 == text && ':' !in r.1
  {
    match RFind(text, ':')
    case None => (defaultHost, text)
    case Some(pos) =>
      assert text[..pos] + ":" + text[pos + 1..] == text by {
        assert text == text[..pos] + [text[pos]] + text[pos + 1..];
      }
      (text[..pos], text[pos + 1..])
  }

  /** The split is the only one whose port has no ':'. */
  lemma {:induction false} HostPortSplitUnique(text: string, defaultHost: string, host: string, port: string)
    requires host + ":" + port == text && ':' !in port
    ensures ParseHostPort(text, defaultHost) == (host, port)
  {
    assert text[|host|] == ':';
    var p := RFind(text, ':').value;
    assert p == |host|;
    assert text[..p] == host;
    assert text[p + 1..] == port;
  }

  /** ROYALE_LOG_MIN; ROYALE_LOG_MAX is 6, 5 or 4 by build and is passed in. */
  const LogMin: int := 0

  /** The log-level handling of handle_option_result: a level above the
      compiled maximum or below the minimum is clamped with a warning, and
      the logger gets level 6 - level (6 is off, 0 is trace). */
  method ClampLogLevel(requested: int, logMax: int) returns (level: int, loggerLevel: int, warned: bool)
    requires 4 <= logMax <= 6
    ensures LogMin <= level <= logMax
    ensures LogMin <= requested <= logMax ==> level == requested
    ensures requested > logMax ==> level == logMax
    ensures requested < LogMin ==> level == LogMin
    ensures warned <==> requested < LogMin || requested > logMax
    ensures loggerLevel == 6 - level && 0 <= loggerLevel <= 6
  {
    level := requested;
    warned := false;
    if level > logMax {
      warned := true;
      level := logMax;
    }
    if level < LogMin {
      warned := true;
      level := LogMin;
    }
    loggerLevel := 6 - level;
  }

  /** One entry of a directory listing: its path and the JSON its file
      holds (reading and parsing the file are not part of this model). */
  datatype DirEntry = DirEntry(path: string, content: Json)

  /** Whether the directory scan loads this entry. */
  predicate IsExperimentFile(e: DirEntry)
  {
    EndsWith(CStr(e.path), ExperimentJsonExtension)
  }

  /** The experiment a directory entry contributes: a cd of "" becomes
      the directory. */
  function InDirectory(f: ExperimentFields, dir: string): (g: ExperimentFields)
    ensures g.cd == (if f.cd == "" then dir else f.cd)
    ensures g.(cd := f.cd) == f
  {
    if f.cd == "" then f.(cd := dir) else f
  }

  /** add_str: decodes an experiment and adds it to the runner. */
  method AddJson(runner: Runner, j: Json, reg: map<string, string>) returns (r: Result<Experiment>)
    modifies runner
    ensures r.Ok? ==>
      && DecodeExperiment(j, reg).Ok?
      && var f := DecodeExperiment(j, reg).value;
      && f.name != "" && f.name !in old(runner.experiments)
      && fresh(r.value) && fresh(r.value.inputs) && r.value.State() == f
      && runner.experiments == old(runner.experiments)[f.name := r.value]
    ensures r.Err? ==> runner.experiments == old(runner.experiments)
    ensures var d := DecodeExperiment(j, reg);
      d.Ok? && d.value.name != "" && d.value.name !in old(runner.experiments) ==> r.Ok?
    ensures runner.remote == old(runner.remote) && runner.cd == old(runner.cd) && runner.pretty == old(runner.pretty)
  {
    var e := FromJson(j, reg);
    if e.Err? {
      return Err(e.error);
    }
    r := runner.AddExperiment(e.value);
  }

  /** What a directory entry loads: the experiment an experiment file
      decodes to; nothing for any other file (or a file that fails). */
  function Loads(e: DirEntry, reg: map<string, string>): (r: Option<ExperimentFields>)
    ensures r.Some? <==> IsExperimentFile(e) && DecodeExperiment(e.content, reg).Ok?
    ensures r.Some? ==> r.value == DecodeExperiment(e.content, reg).value
  {
    if IsExperimentFile(e) && DecodeExperiment(e.content, reg).Ok? then
      Some(DecodeExperiment(e.content, reg).value)
    else None
  }

  /** The names of the experiments loaded by the first `i` entries, given
      what each entry loads. */
  ghost function LoadedNames(loads: seq<Option<ExperimentFields>>, i: nat): set<string>
    requires i <= |loads|
  {
    set n | 0 <= n < i && loads[n].Some? :: loads[n].value.name
  }

  lemma LoadedNamesStep(loads: seq<Option<ExperimentFields>>, i: nat)
    requires i < |loads|
    ensures LoadedNames(loads, i + 1) ==
      LoadedNames(loads, i) + (if loads[i].Some? then {loads[i].value.name} else {})
  {
  }

  /** Entry `i` of the directory scan: skipped unless it is an experiment
      file; otherwise added, and given the directory as cd when it has none.
      `loads` holds what each entry loads and `files` which entries are
      experiment files. */
  method LoadEntry(runner: Runner, dir: string, entries: seq<DirEntry>, i: nat, reg: map<string, string>,
                   ghost loads: seq<Option<ExperimentFields>>, ghost files: seq<bool>)
    returns (r: Result<Experiment?>)
    requires i < |entries| == |loads| == |files|
    requires forall n {:trigger Loads(entries[n], reg)} | 0 <= n < |entries| :: loads[n] == Loads(entries[n], reg)
    requires forall n {:trigger IsExperimentFile(entries[n])} | 0 <= n < |entries| :: files[n] == IsExperimentFile(entries[n])
    modifies runner
    ensures !files[i] ==> r == Ok(null)
    ensures files[i] ==>
      (r.Ok? <==> loads[i].Some? && loads[i].value.name != "" && loads[i].value.name !in old(runner.experiments))
    ensures r.Ok? ==> (files[i] <==> loads[i].Some?)
    ensures r.Ok? && loads[i].None? ==> r.value == null && runner.experiments == old(runner.experiments)
    ensures r.Ok? && loads[i].Some? ==>
      && var f := loads[i].value;
      && f.name !in old(runner.experiments)
      && r.value != null && fresh(r.value) && r.value.State() == InDirectory(f, dir)
      && runner.experiments == old(runner.experiments)[f.name := r.value]
    ensures r.Err? ==> runner.experiments == old(runner.experiments)
    ensures runner.remote == old(runner.remote) && runner.cd == old(runner.cd)
  {
    ghost var want := Loads(entries[i], reg);
    assert loads[i] == want;
    if !IsExperimentFile(entries[i]) {
      return Ok(null);
    }
    var added := AddJson(runner, entries[i].content, reg);
    if added.Err? {
      return Err(added.error);
    }
    var exp := added.value;
    if exp.cd == "" {
      exp := exp.SetCd(dir);
    }
    r := Ok(exp);
  }

  /** The names after the first `i` entries of the scan: the experiments
      `start` held are kept, each experiment file so far has decoded, and
      each loaded experiment is under a name new to `start`. */
  ghost predicate ScannedNames(now: map<string, Experiment>, start: map<string, Experiment>,
                               loads: seq<Option<ExperimentFields>>, files: seq<bool>, i: nat)
    requires i <= |loads| == |files|
  {
    && now.Keys == start.Keys + LoadedNames(loads, i)
    && (forall k | k in start :: now[k] == start[k])
    && (forall n | 0 <= n < i :: files[n] <==> loads[n].Some?)
    && (forall n | 0 <= n < i && loads[n].Some? :: loads[n].value.name !in start)
  }

  /** The experiments after the first `i` entries of the scan: each one
      loaded holds what its entry decodes to, with `dir` as its default cd. */
  ghost predicate ScannedStates(now: map<string, Experiment>, loads: seq<Option<ExperimentFields>>, i: nat, dir: string)
    requires i <= |loads|
    reads set k | k in now :: now[k]
    reads set k | k in now :: now[k].inputs
  {
    forall n | 0 <= n < i && loads[n].Some? ::
      loads[n].value.name in now && now[loads[n].value.name].State() == InDirectory(loads[n].value, dir)
  }

  lemma ScannedNamesStep(before: map<string, Experiment>, now: map<string, Experiment>, start: map<string, Experiment>,
                         loads: seq<Option<ExperimentFields>>, files: seq<bool>, i: nat, added: Experiment?)
    requires i < |loads| == |files|
    requires ScannedNames(before, start, loads, files, i)
    requires files[i] <==> loads[i].Some?
    requires loads[i].None? ==> now == before
    requires loads[i].Some? ==> added != null && loads[i].value.name !in before && now == before[loads[i].value.name := added]
    ensures ScannedNames(now, start, loads, files, i + 1)
  {
    LoadedNamesStep(loads, i);
  }

  /** Adding the experiment entry `i` loads keeps the earlier ones. */
  lemma ScannedStatesStep(before: map<string, Experiment>, now: map<string, Experiment>,
                          loads: seq<Option<ExperimentFields>>, i: nat, dir: string, added: Experiment?)
    requires i < |loads|
    requires ScannedStates(before, loads, i, dir)
    requires loads[i].None? ==> now == before
    requires loads[i].Some? ==>
      && added != null && loads[i].value.name !in before && now == before[loads[i].value.name := added]
      && added.State() == InDirectory(loads[i].value, dir)
    ensures ScannedStates(now, loads, i + 1, dir)
  {
    forall n | 0 <= n < i + 1 && loads[n].Some?
      ensures loads[n].value.name in now && now[loads[n].value.name].State() == InDirectory(loads[n].value, dir)
    {
      if n < i {
        var k := loads[n].value.name;
        assert now[k] == before[k];
      }
    }
  }

  /** The scan of the first `i` entries goes through: every experiment
      file among them decodes, to a non-empty name that neither `start`
      nor an earlier experiment file already holds. */
  ghost predicate ScanSucceeds(start: set<string>, loads: seq<Option<ExperimentFields>>, files: seq<bool>, i: nat)
    requires i <= |loads| == |files|
  {
    forall n | 0 <= n < i && files[n] ::
      loads[n].Some? && loads[n].value.name != "" && loads[n].value.name !in start + LoadedNames(loads, n)
  }

  /** One turn of the scan. */
  method LoadStep(runner: Runner, dir: string, entries: seq<DirEntry>, i: nat, reg: map<string, string>,
                  ghost loads: seq<Option<ExperimentFields>>, ghost files: seq<bool>,
                  ghost start: map<string, Experiment>)
    returns (r: Result<Experiment?>)
    requires i < |entries| == |loads| == |files|
    requires forall n {:trigger Loads(entries[n], reg)} | 0 <= n < |entries| :: loads[n] == Loads(entries[n], reg)
    requires forall n {:trigger IsExperimentFile(entries[n])} | 0 <= n < |entries| :: files[n] == IsExperimentFile(entries[n])
    requires ScannedNames(runner.experiments, start, loads, files, i)
    requires ScannedStates(runner.experiments, loads, i, dir)
    modifies runner
    ensures r.Ok? <==>
      !files[i] || (loads[i].Some? && loads[i].value.name != "" && loads[i].value.name !in old(runner.experiments))
    ensures r.Ok? ==> ScannedNames(runner.experiments, start, loads, files, i + 1)
    ensures r.Ok? ==> ScannedStates(runner.experiments, loads, i + 1, dir)
    ensures runner.remote == old(runner.remote) && runner.cd == old(runner.cd)
  {
    ghost var before := runner.experiments;
    r := LoadEntry(runner, dir, entries, i, reg, loads, files);
    if r.Ok? {
      ScannedNamesStep(before, runner.experiments, start, loads, files, i, r.value);
      assert ScannedStates(before, loads, i, dir);
      ScannedStatesStep(before, runner.experiments, loads, i, dir, r.value);
    }
  }

  /** The loop over one --directory: every entry whose path ends with
      ".experiment.json" is loaded in listing order, with the directory as
      its cd when it names none; other entries are skipped.  `loads` holds
      what each entry loads and `files` which entries are experiment
      files. */
  method LoadDirectory(runner: Runner, dir: string, entries: seq<DirEntry>, reg: map<string, string>,
                       ghost loads: seq<Option<ExperimentFields>>, ghost files: seq<bool>)
    returns (r: Result<()>)
    requires |entries| == |loads| == |files|
    requires forall n {:trigger Loads(entries[n], reg)} | 0 <= n < |entries| :: loads[n] == Loads(entries[n], reg)
    requires forall n {:trigger IsExperimentFile(entries[n])} | 0 <= n < |entries| :: files[n] == IsExperimentFile(entries[n])
    modifies runner
    ensures r.Ok? <==> ScanSucceeds(old(runner.experiments).Keys, loads, files, |entries|)
    ensures r.Ok? ==> ScannedNames(runner.experiments, old(runner.experiments), loads, files, |entries|)
    ensures r.Ok? ==> ScannedStates(runner.experiments, loads, |entries|, dir)
    ensures runner.remote == old(runner.remote) && runner.cd == old(runner.cd)
  {
    ghost var start := runner.experiments;
    var i := 0;
    while i < |entries|
      invariant 0 <= i <= |entries|
      invariant runner.remote == old(runner.remote) && runner.cd == old(runner.cd)
      invariant ScannedNames(runner.experiments, start, loads, files, i)
      invariant ScannedStates(runner.experiments, loads, i, dir)
      invariant ScanSucceeds(start.Keys, loads, files, i)
    {
      ghost var before := runner.experiments.Keys;
      var one := LoadStep(runner, dir, entries, i, reg, loads, files, start);
      if one.Err? {
        assert files[i] && before == start.Keys + LoadedNames(loads, i);
        return Err(one.error);
      }
      i := i + 1;
    }
    r := Ok(());
  }

  /** Where the trials come from. */
  datatype Source = FromInput | ViaRemote | Local

  /** The final option check: --input wins, then --remote; --batch alone
      is refused. */
  function SelectSource(input: bool, remote: bool, batch: bool): (r: Result<Source>)
    ensures r.Err? <==> batch && !input && !remote
    ensures r.Err? ==> r.error == RuntimeError("bad command line options")
    ensures input ==> r == Ok(FromInput)
    ensures !input && remote ==> r == Ok(ViaRemote)
    ensures r == Ok(Local) <==> !input && !remote && !batch
  {
    if input then Ok(FromInput)
    else if remote then Ok(ViaRemote)
    else if batch then Err(RuntimeError("bad command line options"))
    else Ok(Local)
  }
}

// The ordering of the trials --exec and --repeat produce.
module ExecOrder {
  import opened Wrappers
  import opened Trials

  /** `n` copies of `x` (none when n <= 0). */
  function Copies(x: string, n: int): (r: seq<string>)
    ensures |r| == if n <= 0 then 0 else n
    ensures forall i | 0 <= i < |r| :: r[i] == x
  {
    if n <= 0 then [] else Copies(x, n - 1) + [x]
  }

  /** The experiment names --exec runs, in order: each run `repeat` times
      before the next. */
  function Calls(runs: seq<string>, repeat: int): (r: seq<string>)
  {
    if runs == [] then [] else Calls(runs[..|runs| - 1], repeat) + Copies(runs[|runs| - 1], repeat)
  }

  /** The position of the i-th repetition of the k-th run. */
  function Slot(k: nat, i: nat, repeat: nat): nat
  {
    k * repeat + i
  }

  lemma SlotBelow(k: nat, i: nat, repeat: nat, m: nat)
    requires k < m && i < repeat
    ensures Slot(k, i, repeat) < m * repeat
  {
    assert (m - k - 1) * repeat >= 0;
    assert m * repeat == k * repeat + repeat + (m - k - 1) * repeat;
  }

  lemma {:induction false} CallsShape(runs: seq<string>, repeat: nat)
    ensures |Calls(runs, repeat)| == |runs| * repeat
    ensures forall k, i | 0 <= k < |runs| && 0 <= i < repeat :: Calls(runs, repeat)[Slot(k, i, repeat)] == runs[k]
  {
    if runs != [] {
      var init := runs[..|runs| - 1];
      CallsShape(init, repeat);
      var c := Calls(runs, repeat);
      assert c == Calls(init, repeat) + Copies(runs[|runs| - 1], repeat);
      assert |runs| * repeat == |init| * repeat + repeat;
      forall k, i | 0 <= k < |runs| && 0 <= i < repeat
        ensures Slot(k, i, repeat) < |c| && c[Slot(k, i, repeat)] == runs[k]
      {
        SlotBelow(k, i, repeat, |runs|);
        if k < |init| {
          SlotBelow(k, i, repeat, |init|);
          assert runs[k] == init[k];
        } else {
          assert Slot(k, i, repeat) == |init| * repeat + i;
        }
      }
    }
  }

  /** The results of the calls in order, the j-th call being made with
      index j: one trial each from run_trial, or the trials of a whole
      batch from run_batch.  The first exception stops the loop. */
  function Results(calls: seq<string>, batch: bool,
                   single: (nat, string) -> Result<TrialRecord>,
                   batches: (nat, string) -> Result<seq<TrialRecord>>): Result<seq<TrialRecord>>
  {
    if calls == [] then Ok([])
    else
      var j := |calls| - 1;
      match Results(calls[..j], batch, single, batches)
      case Err(e) => Err(e)
      case Ok(rs) =>
        if batch then
          match batches(j, calls[j])
          case Err(e) => Err(e)
          case Ok(ts) => Ok(rs + ts)
        else
          match single(j, calls[j])
          case Err(e) => Err(e)
          case Ok(t) => Ok(rs + [t])
  }

  /** One more call: its result is appended, unless something failed. */
  lemma ResultsSnoc(cs: seq<string>, c: string, batch: bool,
                    single: (nat, string) -> Result<TrialRecord>,
                    batches: (nat, string) -> Result<seq<TrialRecord>>)
    ensures Results(cs + [c], batch, single, batches) ==
      if Results(cs, batch, single, batches).Err? then Results(cs, batch, single, batches)
      else if batch then
        (if batches(|cs|, c).Err? then Err(batches(|cs|, c).error)
         else Ok(Results(cs, batch, single, batches).value + batches(|cs|, c).value))
      else
        (if single(|cs|, c).Err? then Err(single(|cs|, c).error)
         else Ok(Results(cs, batch, single, batches).value + [single(|cs|, c).value]))
  {
    assert (cs + [c])[..|cs|] == cs;
  }

  /** Once a prefix of the calls fails, so does every longer run. */
  lemma {:induction false} ResultsErrExtends(cs: seq<string>, ds: seq<string>, batch: bool,
                                              single: (nat, string) -> Result<TrialRecord>,
                                              batches: (nat, string) -> Result<seq<TrialRecord>>)
    requires cs <= ds && Results(cs, batch, single, batches).Err?
    ensures Results(ds, batch, single, batches) == Results(cs, batch, single, batches)
    decreases |ds|
  {
    if |ds| > |cs| {
      var init := ds[..|ds| - 1];
      assert cs <= init;
      ResultsErrExtends(cs, init, batch, single, batches);
    } else {
      assert cs == ds;
    }
  }

  lemma {:induction false} CopiesPrefix(x: string, i: int, n: int)
    requires i <= n
    ensures Copies(x, i) <= Copies(x, n)
    decreases n - i
  {
    if i < n {
      CopiesPrefix(x, i, n - 1);
    }
  }

  lemma {:induction false} CallsPrefix(runs: seq<string>, k: nat, repeat: int)
    requires k <= |runs|
    ensures Calls(runs[..k], repeat) <= Calls(runs, repeat)
    decreases |runs| - k
  {
    if k < |runs| {
      var init := runs[..|runs| - 1];
      assert init[..k] == runs[..k];
      CallsPrefix(init, k, repeat);
    } else {
      assert runs[..k] == runs;
    }
  }

  /** Without --batch and without failures, the j-th result is the trial of
      the j-th call. */
  lemma {:induction false} SingleResults(calls: seq<string>, single: (nat, string) -> Result<TrialRecord>,
                                         batches: (nat, string) -> Result<seq<TrialRecord>>)
    requires forall j | 0 <= j < |calls| :: single(j, calls[j]).Ok?
    ensures Results(calls, false, single, batches).Ok?
    ensures |Results(calls, false, single, batches).value| == |calls|
    ensures forall j | 0 <= j < |calls| :: Results(calls, false, single, batches).value[j] == single(j, calls[j]).value
  {
    if calls != [] {
      var init := calls[..|calls| - 1];
      SingleResults(init, single, batches);
    }
  }

  /** A failure during the runs of runs[k] is the result of the whole
      loop. */
  lemma FailureStops(runs: seq<string>, k: nat, repeat: int, batch: bool,
                     single: (nat, string) -> Result<TrialRecord>,
                     batches: (nat, string) -> Result<seq<TrialRecord>>)
    requires k < |runs|
    requires Results(Calls(runs[..k + 1], repeat), batch, single, batches).Err?
    ensures Results(Calls(runs, repeat), batch, single, batches) ==
            Results(Calls(runs[..k + 1], repeat), batch, single, batches)
  {
    CallsPrefix(runs, k + 1, repeat);
    ResultsErrExtends(Calls(runs[..k + 1], repeat), Calls(runs, repeat), batch, single, batches);
  }

  /** One call of the --exec loop, the |made|-th: run_batch or run_trial,
      its trials appended to those so far, or the exception it raised. */
  method ExecOne(ghost made: seq<string>, index: nat, run: string, batch: bool,
                 single: (nat, string) -> Result<TrialRecord>,
                 batches: (nat, string) -> Result<seq<TrialRecord>>,
                 results: seq<TrialRecord>)
    returns (failed: Option<Exception>, results': seq<TrialRecord>)
    requires index == |made| && Results(made, batch, single, batches) == Ok(results)
    ensures failed.Some? ==> Results(made + [run], batch, single, batches) == Err(failed.value)
    ensures failed.None? ==> Results(made + [run], batch, single, batches) == Ok(results')
  {
    ResultsSnoc(made, run, batch, single, batches);
    if batch {
      var trials := batches(index, run);
      if trials.Err? {
        return Some(trials.error), results;
      }
      results' := results + trials.value;
    } else {
      var trial := single(index, run);
      if trial.Err? {
        return Some(trial.error), results;
      }
      results' := results + [trial.value];
    }
    failed := None;
  }

  lemma CopiesSnoc(before: seq<string>, run: string, i: nat)
    ensures (before + Copies(run, i)) + [run] == before + Copies(run, i + 1)
  {
    assert Copies(run, i + 1) == Copies(run, i) + [run];
  }

  /** A failure in the (i+1)-th call for `run` is the result of all its
      `repeat` calls. */
  lemma RepeatFailureStops(before: seq<string>, run: string, i: nat, repeat: int, batch: bool,
                           single: (nat, string) -> Result<TrialRecord>,
                           batches: (nat, string) -> Result<seq<TrialRecord>>)
    requires i < repeat
    requires Results(before + Copies(run, i + 1), batch, single, batches).Err?
    ensures Results(before + Copies(run, repeat), batch, single, batches) ==
            Results(before + Copies(run, i + 1), batch, single, batches)
  {
    CopiesPrefix(run, i + 1, repeat);
    assert before + Copies(run, i + 1) <= before + Copies(run, repeat);
    ResultsErrExtends(before + Copies(run, i + 1), before + Copies(run, repeat), batch, single, batches);
  }

  /** The inner loop of --exec: `repeat` calls for one experiment, the
      first being the index-th call overall. */
  method ExecRepeats(ghost before: seq<string>, index: nat, run: string, repeat: int, batch: bool,
                     single: (nat, string) -> Result<TrialRecord>,
                     batches: (nat, string) -> Result<seq<TrialRecord>>,
                     results: seq<TrialRecord>)
    returns (failed: Option<Exception>, results': seq<TrialRecord>, next: nat)
    requires index == |before| && Results(before, batch, single, batches) == Ok(results)
    ensures failed.Some? ==> Results(before + Copies(run, repeat), batch, single, batches) == Err(failed.value)
    ensures failed.None? ==>
      Results(before + Copies(run, repeat), batch, single, batches) == Ok(results') &&
      next == |before + Copies(run, repeat)|
  {
    results', next := results, index;
    assert before + Copies(run, 0) == before;
    var i := 0;
    while i < repeat
      invariant 0 <= i && (repeat >= 0 ==> i <= repeat) && (repeat < 0 ==> i == 0)
      invariant next == |before| + i
      invariant Results(before + Copies(run, i), batch, single, batches) == Ok(results')
    {
      CopiesSnoc(before, run, i);
      failed, results' := ExecOne(before + Copies(run, i), next, run, batch, single, batches, results');
      if failed.Some? {
        RepeatFailureStops(before, run, i, repeat, batch, single, batches);
        return;
      }
      next := next + 1;
      i := i + 1;
    }
    assert i == |Copies(run, repeat)|;
    failed := None;
  }

  /** The --exec loop: nothing at all when no experiment is named;
      otherwise each named experiment `repeat` times in turn, one trial per
      run (or the trials of one batch per run with --batch), in order. */
  method ExecRuns(runs: seq<string>, repeat: int, batch: bool,
                  single: (nat, string) -> Result<TrialRecord>,
                  batches: (nat, string) -> Result<seq<TrialRecord>>)
    returns (r: Option<Result<seq<TrialRecord>>>)
    ensures |runs| == 0 <==> r.None?
    ensures |runs| > 0 ==> r == Some(Results(Calls(runs, repeat), batch, single, batches))
  {
    if |runs| == 0 {
      return None;
    }
    var results: seq<TrialRecord> := [];
    var calls := 0;
    var k := 0;
    while k < |runs|
      invariant 0 <= k <= |runs|
      invariant calls == |Calls(runs[..k], repeat)|
      invariant Results(Calls(runs[..k], repeat), batch, single, batches) == Ok(results)
    {
      assert runs[..k + 1][..k] == runs[..k];
      var failed;
      failed, results, calls := ExecRepeats(Calls(runs[..k], repeat), calls, runs[k], repeat,
                                            batch, single, batches, results);
      if failed.Some? {
        FailureStops(runs, k, repeat, batch, single, batches);
        return Some(Err(failed.value));
      }
      k := k + 1;
    }
    assert runs[..k] == runs;
    r := Some(Ok(results));
  }

  /** --exec without --batch: `repeat` trials per named experiment, the
      experiment of the k-th group of `repeat` results being runs[k]. */
  lemma ExecOrder(runs: seq<string>, repeat: nat, single: (nat, string) -> Result<TrialRecord>,
                  batches: (nat, string) -> Result<seq<TrialRecord>>)
    requires forall j, name :: single(j, name).Ok?
    ensures
      var rs := Results(Calls(runs, repeat), false, single, batches);
      && rs.Ok? && |rs.value| == |runs| * repeat
      && forall k, i | 0 <= k < |runs| && 0 <= i < repeat ::
           Slot(k, i, repeat) < |rs.value| && rs.value[Slot(k, i, repeat)] == single(Slot(k, i, repeat), runs[k]).value
  {
    CallsShape(runs, repeat);
    var calls := Calls(runs, repeat);
    SingleResults(calls, single, batches);
    var rs := Results(calls, false, single, batches);
    forall k, i | 0 <= k < |runs| && 0 <= i < repeat
      ensures Slot(k, i, repeat) < |rs.value| && rs.value[Slot(k, i, repeat)] == single(Slot(k, i, repeat), runs[k]).value
    {
      SlotBelow(k, i, repeat, |runs|);
      assert calls[Slot(k, i, repeat)] == runs[k];
    }
  }
}
