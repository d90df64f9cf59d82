// include/royale/ErrorKind.hpp, TrialInput.hpp and Trial.hpp: one run of an
// experiment, its status, and the per-predicate tallies an analysis keeps.
module Trials {
  import opened Wrappers
  import opened JsonTree
  import opened Util

  /** Why a trial failed. */
  datatype ErrorKind =
    | Raised(cause: Exception)          // ErrorKind::Exception: an exception escaped the run
    | ErrorCode(value: int, message: string, category: string, stdout: string, stderr: string)
    | ExitStatus(code: int, stdout: string, stderr: string)
    | BadOutput(stdout: string, stderr: string)
    | UnknownExperiment(name: string)

  /** What an experiment program prints on success. */
  datatype TrialOutput = TrialOutput(preds: map<string, bool>, aux: map<string, Json>, replicate: Json)

  datatype StatusCode = Created | InProgress | Error | Complete

  datatype TrialStatus =
    | Created
    | InProgress
    | Error(kind: ErrorKind)
    | Complete(output: TrialOutput, stderr: string)
  {
    function Code(): (c: StatusCode)
      ensures Created? <==> c == StatusCode.Created
      ensures InProgress? <==> c == StatusCode.InProgress
      ensures Error? <==> c == StatusCode.Error
      ensures Complete? <==> c == StatusCode.Complete
    {
      match this
      case Created => StatusCode.Created
      case InProgress => StatusCode.InProgress
      case Error(_) => StatusCode.Error
      case Complete(_, _) => StatusCode.Complete
    }

    /** final(): false by default, true for Error and Complete. */
    predicate Final()
    {
      match this
      case Error(_) => true
      case Complete(_, _) => true
      case _ => false
    }
  }

  /** The status of an analysis; the regression result a completed
      analysis carries is not part of this model. */
  datatype AnalysisStatus =
    | Created
    | InProgress
    | Error(kind: ErrorKind)
    | Complete(stderr: string)
  {
    predicate Final()
    {
      match this
      case Error(_) => true
      case Complete(_) => true
      case _ => false
    }
  }

  /** A status is final exactly when its code is Error or Complete. */
  lemma FinalIsErrorOrComplete(s: TrialStatus, a: AnalysisStatus)
    ensures s.Final() <==> s.Code() == StatusCode.Error || s.Code() == StatusCode.Complete
    ensures a.Final() <==> a.Error? || a.Complete?
  {
  }

  /** The contents of a TrialInput, as a value (what a message carries). */
  datatype InputRecord = InputRecord(experimentName: string, sample: map<string, Value>, replicate: Json)

  /** The contents of a Trial, as a value. */
  datatype TrialRecord = TrialRecord(status: TrialStatus, input: InputRecord)

  /** What is left in a TrialInput after it has been moved from: the
      strings and maps are empty and the JSON value is null. */
  const MovedFromInput: InputRecord := InputRecord("", map[], JNull)

  class TrialInput {
    var experimentName: string
    var sample: map<string, Value>
    var replicate: Json

    constructor (name: string, sample: map<string, Value>, replicate: Json)
      ensures experimentName == name && this.sample == sample && this.replicate == replicate
    {
      experimentName := name;
      this.sample := sample;
      this.replicate := replicate;
    }

    method SetExperimentName(name: string)
      modifies this
      ensures experimentName == name && sample == old(sample) && replicate == old(replicate)
    {
      experimentName := name;
    }

    method SetSample(s: map<string, Value>)
      modifies this
      ensures sample == s && experimentName == old(experimentName) && replicate == old(replicate)
    {
      sample := s;
    }

    method SetReplicate(r: Json)
      modifies this
      ensures replicate == r && experimentName == old(experimentName) && sample == old(sample)
    {
      replicate := r;
    }
  }

  class Trial {
    var status: TrialStatus
    const input: TrialInput

    /** Trial(): status Created, an empty input. */
    constructor ()
      ensures status == TrialStatus.Created
      ensures fresh(input)
      ensures input.experimentName == "" && input.sample == map[] && input.replicate == JNull
    {
      status := TrialStatus.Created;
      input := new TrialInput("", map[], JNull);
    }

    /** Trial(name, sample): status Created, the given input, no replicate. */
    constructor Named(name: string, sample: map<string, Value>)
      ensures status == TrialStatus.Created
      ensures fresh(input)
      ensures input.experimentName == name && input.sample == sample && input.replicate == JNull
    {
      status := TrialStatus.Created;
      input := new TrialInput(name, sample, JNull);
    }

    /** Builds a trial holding the given contents (a trial read from a
        message). */
    constructor FromRecord(t: TrialRecord)
      ensures Snapshot() == t
      ensures fresh(input)
    {
      status := t.status;
      input := new TrialInput(t.input.experimentName, t.input.sample, t.input.replicate);
    }

    function Snapshot(): TrialRecord
      reads this, input
    {
      TrialRecord(status, InputRecord(input.experimentName, input.sample, input.replicate))
    }

    /** input(ti): replaces the whole input. */
    method SetInput(ti: TrialInput)
      modifies input
      ensures input.experimentName == old(ti.experimentName)
      ensures input.sample == old(ti.sample)
      ensures input.replicate == old(ti.replicate)
    {
      var name, sample, replicate := ti.experimentName, ti.sample, ti.replicate;
      input.experimentName := name;
      input.sample := sample;
      input.replicate := replicate;
    }

    /** sample(s): replaces only the sample of the input. */
    method SetSample(s: map<string, Value>)
      modifies input
      ensures input.sample == s
      ensures input.experimentName == old(input.experimentName) && input.replicate == old(input.replicate)
    {
      input.SetSample(s);
    }

    /** exception(e): the trial failed with that exception. */
    method RaiseException(e: Exception)
      modifies this
      ensures status == TrialStatus.Error(Raised(e))
    {
      status := TrialStatus.Error(Raised(e));
    }

    method SetStatus(s: TrialStatus)
      modifies this
      ensures status == s
    {
      status := s;
    }
  }

  /** The satisfied share of n counted trials; 0 before any is counted. */
  function Ratio(sat: nat, n: nat): real
  {
    if n == 0 then 0.0 else sat as real / n as real
  }

  /** A share of satisfied trials lies in [0, 1], is positive once one
      trial is satisfied and is 1 when all are. */
  lemma RatioBounds(sat: nat, n: nat)
    requires sat <= n
    ensures 0.0 <= Ratio(sat, n) <= 1.0
    ensures 0 < sat ==> 0.0 < Ratio(sat, n)
    ensures 0 < n && sat == n ==> Ratio(sat, n) == 1.0
  {
    if n != 0 {
      var r := sat as real / n as real;
      assert r * n as real == sat as real;
    }
  }

  /** The running tally of one predicate across trials.  Counters are
      unbounded here; size_t overflow is not modelled. */
  class PredicateOutput {
    var name: string
    var satCount: nat
    var errorCount: nat
    var count: nat
    var prob: real
    var relError: real

    /** Satisfied and failed trials are among the counted ones. */
    ghost predicate Valid()
      reads this
    {
      satCount + errorCount <= count
    }

    constructor ()
      ensures name == "" && satCount == 0 && errorCount == 0 && count == 0
      ensures prob == 0.0 && relError == 0.0
      ensures Valid()
    {
      name := "";
      satCount := 0;
      errorCount := 0;
      count := 0;
      prob := 0.0;
      relError := 0.0;
    }

    /** add_sat(): one more satisfied trial, then the add_unsat bookkeeping. */
    method AddSat()
      requires Valid()
      modifies this
      ensures Valid()
      ensures satCount == old(satCount) + 1 && count == old(count) + 1 && errorCount == old(errorCount)
      ensures prob == Ratio(satCount, count - errorCount)
      ensures 0.0 < prob <= 1.0
      ensures name == old(name) && relError == old(relError)
    {
      satCount := satCount + 1;
      AddUnsat();
    }

    /** add_unsat(): one more counted trial; the probability becomes the
        satisfied share of the trials that did not fail. */
    method AddUnsat()
      requires errorCount <= count
      modifies this
      ensures count == old(count) + 1 && satCount == old(satCount) && errorCount == old(errorCount)
      ensures prob == Ratio(satCount, count - errorCount)
      ensures old(Valid()) ==> Valid() && 0.0 <= prob <= 1.0
      ensures old(satCount + errorCount == count + 1) ==> Valid() && prob == 1.0
      ensures name == old(name) && relError == old(relError)
    {
      count := count + 1;
      prob := Ratio(satCount, count - errorCount);
      if satCount <= count - errorCount {
        RatioBounds(satCount, count - errorCount);
      }
    }

    /** add_error(): one more failed trial; the probability is left as it was. */
    method AddError()
      requires Valid()
      modifies this
      ensures Valid()
      ensures errorCount == old(errorCount) + 1 && count == old(count) + 1 && satCount == old(satCount)
      ensures prob == old(prob) && name == old(name) && relError == old(relError)
    {
      errorCount := errorCount + 1;
      count := count + 1;
    }
  }
}
