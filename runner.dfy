// The Runner of include/royale/Runner.hpp and src/common/Runner.cpp: the
// experiments it knows, how it runs one trial, how a finished child process
// is turned into a trial status, and how it answers a request message.
module Runners {
  import opened Wrappers
  import opened JsonTree
  import opened Util
  import opened ValueSpecs
  import opened Inputs
  import opened Experiments
  import opened Trials
  import opened Registries

  /** A std::error_code handed to on_exit by the process library. */
  datatype SysError = SysError(value: int, message: string, category: string)

  /** What on_exit sees when the child ends: the error code, the exit
      status and everything the child wrote to stdout and stderr. */
  datatype ExitReport = ExitReport(ec: Option<SysError>, result: int, stdout: string, stderr: string)

  /** What starting the child comes to: the process library throws before
      the child runs, or the child runs and exits. */
  datatype Spawn = LaunchFailed(cause: Exception) | Exited(report: ExitReport)

  /** The messages runners exchange. */
  datatype Message =
    | RunTrial(trial: TrialRecord)
    | TrialDone(trial: TrialRecord)
    | Register(experiments: seq<string>)
    | RunBatch(experimentName: string)
    | BatchDone(experimentName: string, trials: seq<TrialRecord>)
  {
    /** virt_type_name(): the class name of the alternative. */
    function TypeName(): string
    {
      match this
      case RunTrial(_) => "RunTrial"
      case TrialDone(_) => "TrialDone"
      case Register(_) => "Register"
      case RunBatch(_) => "RunBatch"
      case BatchDone(_, _) => "BatchDone"
    }
  }

  function UnexpectedMessage(m: Message): Exception
  {
    RuntimeError("Unexpected message type: " + m.TypeName())
  }

  /** The stderr text a final status carries ("" for the others). */
  function StderrOf(s: TrialStatus): string
  {
    match s
    case Complete(_, err) => err
    case Error(ErrorCode(_, _, _, _, err)) => err
    case Error(ExitStatus(_, _, err)) => err
    case Error(BadOutput(_, err)) => err
    case _ => ""
  }

  /** The status on_exit gives a trial.  `parsed` is the TrialOutput the
      child's stdout parses to, None when parsing throws.  An error code
      wins over everything, then a nonzero exit status, then the parse. */
  function Outcome(rep: ExitReport, parsed: Option<TrialOutput>): (s: TrialStatus)
    ensures s.Final()
    ensures s.Complete? <==> rep.ec.None? && rep.result == 0 && parsed.Some?
    ensures s.Complete? ==> s.output == parsed.value
    ensures rep.ec.Some? ==>
      s.Error? && s.kind.ErrorCode? && s.kind.value == rep.ec.value.value && s.kind.stdout == rep.stdout
    ensures rep.ec.None? && rep.result != 0 ==> s == TrialStatus.Error(ExitStatus(rep.result, rep.stdout, rep.stderr))
    ensures rep.ec.None? && rep.result == 0 && parsed.None? ==> s == TrialStatus.Error(BadOutput(rep.stdout, rep.stderr))
    ensures StderrOf(s) == rep.stderr
  {
    match rep.ec
    case Some(ec) =>
      TrialStatus.Error(ErrorCode(ec.value, ec.message, ec.category, rep.stdout, rep.stderr))
    case None =>
      if rep.result != 0 then TrialStatus.Error(ExitStatus(rep.result, rep.stdout, rep.stderr))
      else match parsed
        case Some(out) => TrialStatus.Complete(out, rep.stderr)
        case None => TrialStatus.Error(BadOutput(rep.stdout, rep.stderr))
  }

  /** An error code decides the outcome whatever the exit status and the
      parse. */
  lemma {:induction false} ErrorCodeWins(rep: ExitReport, result: int, p: Option<TrialOutput>, q: Option<TrialOutput>)
    requires rep.ec.Some?
    ensures Outcome(rep, p) == Outcome(rep.(result := result), q)
  {
    var ec := rep.ec.value;
    assert Outcome(rep, p) == TrialStatus.Error(ErrorCode(ec.value, ec.message, ec.category, rep.stdout, rep.stderr));
  }

  /** The exception exec_experiment_impl throws before the child exists:
      cmd.at(0) on an empty command, or the process library failing to
      start it. */
  function Thrown(cmd: seq<string>, spawn: Spawn): (e: Option<Exception>)
    ensures |cmd| == 0 ==> e == Some(OutOfRange)
    ensures |cmd| > 0 ==> (e.Some? <==> spawn.LaunchFailed?)
  {
    if |cmd| == 0 then Some(OutOfRange)
    else if spawn.LaunchFailed? then Some(spawn.cause)
    else None
  }

  /** The completion handler a trial is handed to; it records each call. */
  class Handler {
    var received: seq<TrialRecord>

    constructor ()
      ensures received == []
    {
      received := [];
    }

    method Call(t: TrialRecord)
      modifies this
      ensures received == old(received) + [t]
    {
      received := received + [t];
    }
  }

  /** on_exit: sets the trial's status from the child's report and hands
      the trial to the handler, exactly once on every path. */
  method OnExit(trial: Trial, rep: ExitReport, parsed: Option<TrialOutput>, handler: Handler)
    modifies trial, handler
    ensures trial.status == Outcome(rep, parsed)
    ensures handler.received == old(handler.received) + [trial.Snapshot()]
  {
    if rep.ec.Some? {
      var ec := rep.ec.value;
      trial.SetStatus(TrialStatus.Error(ErrorCode(ec.value, ec.message, ec.category, rep.stdout, rep.stderr)));
      handler.Call(trial.Snapshot());
      return;
    }
    if rep.result != 0 {
      trial.SetStatus(TrialStatus.Error(ExitStatus(rep.result, rep.stdout, rep.stderr)));
      handler.Call(trial.Snapshot());
      return;
    }
    if parsed.Some? {
      trial.SetStatus(TrialStatus.Complete(parsed.value, rep.stderr));
    } else {
      trial.SetStatus(TrialStatus.Error(BadOutput(rep.stdout, rep.stderr)));
    }
    handler.Call(trial.Snapshot());
  }

  /** exec_experiment_impl: throws before spawning when the command is
      empty or cannot be started; otherwise the child's exit runs on_exit.
      `parse` stands for parsing stdout as a TrialOutput. */
  method ExecExperiment(exp: Experiment, trial: Trial, spawn: Spawn,
                        parse: string -> Option<TrialOutput>, handler: Handler)
    returns (thrown: Option<Exception>)
    modifies trial, handler
    ensures thrown == Thrown(exp.cmd, spawn)
    ensures thrown.Some? ==> trial.status == old(trial.status) && handler.received == old(handler.received)
    ensures thrown.None? ==>
      && trial.status == Outcome(spawn.report, parse(spawn.report.stdout))
      && handler.received == old(handler.received) + [trial.Snapshot()]
  {
    if |exp.cmd| == 0 {
      return Some(OutOfRange);
    }
    match spawn
    case LaunchFailed(cause) =>
      return Some(cause);
    case Exited(rep) =>
      OnExit(trial, rep, parse(rep.stdout), handler);
      return None;
  }

  /** exec_remote_experiment: the trial comes back in a TrialDone answer;
      any other answer throws. */
  function RemoteResult(answer: Message): (r: Result<TrialRecord>)
    ensures r.Ok? <==> answer.TrialDone?
    ensures r.Ok? ==> r.value == answer.trial
    ensures r.Err? ==> r.error == UnexpectedMessage(answer)
  {
    if answer.TrialDone? then Ok(answer.trial) else Err(UnexpectedMessage(answer))
  }

  /** The trial handle_request sends back for RunTrial, as intended: the
      request's own input with a final status.  `cmds` maps each known
      experiment name to its command. */
  function Served(t: TrialRecord, cmds: map<string, seq<string>>, spawn: Spawn,
                  parse: string -> Option<TrialOutput>): (s: TrialRecord)
    ensures s.input == t.input
    ensures s.status.Final()
    ensures t.input.experimentName !in cmds ==>
      s.status == TrialStatus.Error(UnknownExperiment(t.input.experimentName))
    ensures t.input.experimentName in cmds ==>
      match Thrown(cmds[t.input.experimentName], spawn)
      case Some(e) => s.status == TrialStatus.Error(Raised(e))
      case None => s.status == Outcome(spawn.report, parse(spawn.report.stdout))
  {
    var name := t.input.experimentName;
    if name !in cmds then TrialRecord(TrialStatus.Error(UnknownExperiment(name)), t.input)
    else match Thrown(cmds[name], spawn)
      case Some(e) => TrialRecord(TrialStatus.Error(Raised(e)), t.input)
      case None => TrialRecord(Outcome(spawn.report, parse(spawn.report.stdout)), t.input)
  }

  /** The same reply as the source computes it: the trial is moved into
      exec_experiment, so when that throws the reply carries a moved-from
      input. */
  function ServedAsWritten(t: TrialRecord, cmds: map<string, seq<string>>, spawn: Spawn,
                           parse: string -> Option<TrialOutput>): (s: TrialRecord)
    ensures s.status == Served(t, cmds, spawn, parse).status
    ensures t.input.experimentName in cmds && Thrown(cmds[t.input.experimentName], spawn).Some? ==>
      s.input == MovedFromInput
  {
    var name := t.input.experimentName;
    if name !in cmds then TrialRecord(TrialStatus.Error(UnknownExperiment(name)), t.input)
    else match Thrown(cmds[name], spawn)
      case Some(e) => TrialRecord(TrialStatus.Error(Raised(e)), MovedFromInput)
      case None => TrialRecord(Outcome(spawn.report, parse(spawn.report.stdout)), t.input)
  }

  function NoParse(stdout: string): Option<TrialOutput>
  {
    None
  }

  /** A RunTrial request for a known experiment whose command is empty:
      the reply as written names no experiment and carries no sample, so
      the requester cannot tell which trial failed. */
  lemma AsWrittenReplyLosesInput()
    ensures
      var t := TrialRecord(TrialStatus.Created, InputRecord("triangle", map["a" := VDouble(1.0)], JNull));
      var spawn := Exited(ExitReport(None, 0, "", ""));
      var reply := ServedAsWritten(t, map["triangle" := []], spawn, NoParse);
      && reply.input.experimentName == ""
      && reply.input.sample == map[]
      && reply.input != t.input
      && Served(t, map["triangle" := []], spawn, NoParse).input == t.input
  {
    var t := TrialRecord(TrialStatus.Created, InputRecord("triangle", map["a" := VDouble(1.0)], JNull));
    assert "a" in t.input.sample;
  }

  /** When nothing is thrown the two replies agree. */
  lemma ServedAgreesWithoutThrow(t: TrialRecord, cmds: map<string, seq<string>>, spawn: Spawn,
                                 parse: string -> Option<TrialOutput>)
    requires t.input.experimentName !in cmds || Thrown(cmds[t.input.experimentName], spawn).None?
    ensures ServedAsWritten(t, cmds, spawn, parse) == Served(t, cmds, spawn, parse)
  {
  }

  class Runner {
    var experiments: map<string, Experiment>
    const registry: Registry
    var remote: Option<StreamId>
    var pretty: int
    var cd: string

    constructor ()
      ensures experiments == map[] && remote.None? && pretty == -1 && cd == ""
      ensures fresh(registry) && registry.Valid() && registry.remotes == []
    {
      experiments := map[];
      registry := new Registry();
      remote := None;
      pretty := -1;
      cd := "";
    }

    ghost function ExperimentObjects(): set<Experiment>
      reads this
    {
      set k | k in experiments :: experiments[k]
    }

    /** The command of every known experiment. */
    ghost function Commands(): map<string, seq<string>>
      reads this, ExperimentObjects()
    {
      map k | k in experiments :: experiments[k].cmd
    }

    /** connected(): a remote stream has been set. */
    predicate Connected(): (r: bool)
      reads this
      ensures r <==> remote.Some?
    {
      remote.Some?
    }

    /** remote(stream): from now on trials run on that remote. */
    method SetRemote(stream: StreamId)
      modifies this
      ensures Connected() && remote == Some(stream)
      ensures experiments == old(experiments) && pretty == old(pretty) && cd == old(cd)
    {
      remote := Some(stream);
    }

    /** add_experiment: refuses an unnamed experiment and a name already
        present; otherwise stores a copy under its name and returns it. */
    method AddExperiment(e: Experiment) returns (r: Result<Experiment>)
      modifies this
      ensures r.Ok? <==> e.name != "" && e.name !in old(experiments)
      ensures e.name == "" ==> r == Err(RuntimeError("Can't add experiment without name"))
      ensures e.name != "" && e.name in old(experiments) ==> r == Err(RuntimeError("Experiment already added"))
      ensures r.Err? ==> experiments == old(experiments)
      ensures r.Ok? ==>
        && fresh(r.value) && fresh(r.value.inputs)
        && r.value.State() == e.State()
        && experiments == old(experiments)[e.name := r.value]
      ensures remote == old(remote) && pretty == old(pretty) && cd == old(cd)
    {
      var name := e.name;
      if name == "" {
        return Err(RuntimeError("Can't add experiment without name"));
      }
      if name in experiments {
        return Err(RuntimeError("Experiment already added"));
      }
      var copy := new Experiment.FromFields(e.State());
      experiments := experiments[name := copy];
      r := Ok(copy);
    }

    /** run_trial: builds a trial named `name` holding one sample of the
        experiment's inputs, then runs it on `stream` or the remote when
        one is given (`answer` is what comes back), else as a local child
        process.  An unknown name throws out_of_range. */
    method RunTrial(name: string, stream: Option<StreamId>, spawn: Spawn,
                    parse: string -> Option<TrialOutput>, answer: Message)
      returns (r: Result<TrialRecord>, built: TrialRecord)
      requires name in experiments ==>
        forall k | k in experiments[name].inputs.input :: Samplable(experiments[name].inputs.input[k])
      ensures name !in experiments ==> r == Err(OutOfRange)
      ensures name in experiments ==>
        var spec := experiments[name].inputs.input;
        && built.status == TrialStatus.Created
        && built.input.experimentName == name && built.input.replicate == JNull
        && built.input.sample.Keys == spec.Keys
        && (forall k | k in built.input.sample :: IsSampleOf(spec[k], built.input.sample[k]))
      ensures name in experiments && (stream.Some? || Connected()) ==> r == RemoteResult(answer)
      ensures name in experiments && stream.None? && !Connected() ==>
        match Thrown(experiments[name].cmd, spawn)
        case Some(e) => r == Err(e)
        case None =>
          r == Ok(TrialRecord(Outcome(spawn.report, parse(spawn.report.stdout)), built.input))
    {
      var trial := new Trial();
      trial.input.SetExperimentName(name);
      if name !in experiments {
        return Err(OutOfRange), trial.Snapshot();
      }
      var e := experiments[name];
      var sample := e.inputs.Sample();
      trial.SetSample(sample);
      built := trial.Snapshot();
      if stream.Some? || remote.Some? {
        return RemoteResult(answer), built;
      }
      var handler := new Handler();
      var thrown := ExecExperiment(e, trial, spawn, parse, handler);
      if thrown.Some? {
        return Err(thrown.value), built;
      }
      r := Ok(handler.received[0]);
    }

    /** The RunTrial branch of handle_request: runs the requested trial on
        the named experiment and returns the trial to send back. */
    method ServeTrial(t: TrialRecord, spawn: Spawn, parse: string -> Option<TrialOutput>)
      returns (reply: TrialRecord)
      ensures reply == Served(t, Commands(), spawn, parse)
    {
      var trial := new Trial.FromRecord(t);
      var name := trial.input.experimentName;
      if name in experiments {
        var handler := new Handler();
        var thrown := ExecExperiment(experiments[name], trial, spawn, parse, handler);
        if thrown.Some? {
          trial.RaiseException(thrown.value);
        }
      } else {
        trial.SetStatus(TrialStatus.Error(UnknownExperiment(name)));
      }
      reply := trial.Snapshot();
    }

    /** handle_request: answers one message.  RunTrial and RunBatch send a
        reply (`batch` is what run_batch gathered, `deads` the registered
        remotes whose run_trial threw during it); Register records the
        connection as a remote and is the only request after which the
        connection stops being served; the reply messages themselves are
        not requests and throw.  Without a remote of its own, run_batch
        ends by removing the dead remotes from the registry. */
    method HandleRequest(stream: StreamId, req: Message, spawn: Spawn,
                         parse: string -> Option<TrialOutput>, batch: seq<TrialRecord>,
                         deads: seq<Remote>)
      returns (r: Result<bool>, reply: Option<Message>)
      requires registry.Valid()
      requires req.RunBatch? && !Connected() ==>
        && Distinct(deads)
        && forall i | 0 <= i < |deads| :: deads[i] in registry.Lookup(req.experimentName)
      modifies registry
      ensures registry.Valid()
      ensures r == Ok(false) <==> req.Register?
      ensures r.Err? <==> req.TrialDone? || req.BatchDone?
      ensures r.Err? ==> r.error == UnexpectedMessage(req) && reply.None?
      ensures req.RunTrial? ==> reply == Some(TrialDone(Served(req.trial, Commands(), spawn, parse)))
      ensures req.RunBatch? ==> reply == Some(BatchDone(req.experimentName, batch))
      ensures req.Register? ==>
        && reply.None?
        && |registry.remotes| == |old(registry.remotes)| + 1
        && registry.remotes[..|old(registry.remotes)|] == old(registry.remotes)
        && registry.remotes[|old(registry.remotes)|].stream == stream
        && registry.remotes[|old(registry.remotes)|].experiments == req.experiments
      ensures req.RunBatch? && !Connected() ==>
        && registry.remotes == WithoutAll(old(registry.remotes), deads)
        && forall name, d | d in deads :: d !in registry.Lookup(name)
      ensures req.RunTrial? || req.TrialDone? || req.BatchDone? || (req.RunBatch? && Connected()) ==>
        registry.remotes == old(registry.remotes) && registry.executors == old(registry.executors)
    {
      var ret := true;
      reply := None;
      match req {
      case RunTrial(t) =>
        var done := ServeTrial(t, spawn, parse);
        reply := Some(TrialDone(done));
      case Register(names) =>
        var added := registry.RegisterRemote(stream, names);
        assert registry.remotes[..|old(registry.remotes)|] == old(registry.remotes);
        ret := false;
      case RunBatch(name) =>
        if !Connected() {
          registry.RemoveAll(deads);
        }
        reply := Some(BatchDone(name, batch));
      case TrialDone(_) =>
        return Err(UnexpectedMessage(req)), None;
      case BatchDone(_, _) =>
        return Err(UnexpectedMessage(req)), None;
      }
      r := Ok(ret);
    }
  }
}
