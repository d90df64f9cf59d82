// The logistic-regression analysis: the per-predicate tally over complete
// trials, the input matrix and output rows handed to the regression, and
// the coefficient map built from its parameters.  The regression itself
// is a parameter.
module LogisticRegression {
  import opened Wrappers
  import opened Util
  import opened Trials

  /** A complete trial as the analysis keeps it: its input and its output. */
  datatype Completed = Completed(input: InputRecord, output: TrialOutput)

  /** The complete trials of the analysis input, in input order; every
      other status is skipped. */
  function Completes(data: seq<TrialRecord>): seq<Completed>
    decreases |data|
  {
    if data == [] then []
    else
      var init := Completes(data[..|data| - 1]);
      var last := data[|data| - 1];
      if last.status.Complete? then init + [Completed(last.input, last.status.output)] else init
  }

  /** The number of complete trials that report predicate p. */
  function Reports(cs: seq<Completed>, p: string): nat
    decreases |cs|
  {
    if cs == [] then 0
    else Reports(cs[..|cs| - 1], p) + (if p in cs[|cs| - 1].output.preds then 1 else 0)
  }

  /** The number of complete trials that report predicate p as true. */
  function SatReports(cs: seq<Completed>, p: string): nat
    decreases |cs|
  {
    if cs == [] then 0
    else
      var o := cs[|cs| - 1].output;
      SatReports(cs[..|cs| - 1], p) + (if p in o.preds && o.preds[p] then 1 else 0)
  }

  /** Every predicate name some complete trial reports. */
  function ReportedNames(cs: seq<Completed>): set<string>
    decreases |cs|
  {
    if cs == [] then {}
    else ReportedNames(cs[..|cs| - 1]) + cs[|cs| - 1].output.preds.Keys
  }

  /** A name is reported when some complete trial reports it. */
  lemma {:induction false} ReportedNamesMeaning(cs: seq<Completed>)
    ensures forall p :: p in ReportedNames(cs) <==> exists i | 0 <= i < |cs| :: p in cs[i].output.preds
    decreases |cs|
  {
    if cs != [] {
      var init := cs[..|cs| - 1];
      ReportedNamesMeaning(init);
      assert forall i | 0 <= i < |init| :: init[i] == cs[i];
    }
  }

  /** Completes keeps exactly the complete trials, each as its input and output. */
  lemma {:induction false} CompletesMeaning(data: seq<TrialRecord>)
    ensures forall c | c in Completes(data) ::
      exists i | 0 <= i < |data| :: data[i].status.Complete? && c == Completed(data[i].input, data[i].status.output)
    ensures forall i | 0 <= i < |data| && data[i].status.Complete? ::
      Completed(data[i].input, data[i].status.output) in Completes(data)
    decreases |data|
  {
    if data != [] {
      var init := data[..|data| - 1];
      CompletesMeaning(init);
      forall c | c in Completes(data)
        ensures exists i | 0 <= i < |data| :: data[i].status.Complete? && c == Completed(data[i].input, data[i].status.output)
      {
        if c in Completes(init) {
          var i :| 0 <= i < |init| && init[i].status.Complete? && c == Completed(init[i].input, init[i].status.output);
          assert data[i] == init[i];
        } else {
          assert data[|data| - 1].status.Complete?;
        }
      }
      forall i | 0 <= i < |data| && data[i].status.Complete?
        ensures Completed(data[i].input, data[i].status.output) in Completes(data)
      {
        if i < |init| {
          assert init[i] == data[i];
        }
      }
    }
  }

  /** A predicate is reported by some complete trial exactly when it is
      named; the satisfied reports are among the reports, which are among
      the trials. */
  lemma {:induction false} ReportsBounds(cs: seq<Completed>, p: string)
    ensures SatReports(cs, p) <= Reports(cs, p) <= |cs|
    ensures Reports(cs, p) > 0 <==> p in ReportedNames(cs)
    decreases |cs|
  {
    if cs != [] {
      ReportsBounds(cs[..|cs| - 1], p);
    }
  }

  /** Every complete trial reports p exactly when the count of reports is
      the number of complete trials. */
  lemma {:induction false} ReportsAll(cs: seq<Completed>, p: string)
    ensures Reports(cs, p) == |cs| <==> forall i | 0 <= i < |cs| :: p in cs[i].output.preds
    decreases |cs|
  {
    if cs != [] {
      var init := cs[..|cs| - 1];
      ReportsAll(init, p);
      ReportsBounds(init, p);
      assert forall i | 0 <= i < |init| :: init[i] == cs[i];
    }
  }

  /** The counters of one tallied predicate after n reports, s of them true. */
  ghost predicate Counted(po: PredicateOutput, n: nat, s: nat)
    reads po
  {
    && po.Valid()
    && po.name == "" && po.count == n && po.satCount == s && po.errorCount == 0
    && po.prob == Ratio(s, n)
    && po.relError == 0.0
  }

  /** Distinct predicates have distinct counters. */
  ghost predicate Separate(preds: map<string, PredicateOutput>)
  {
    forall a, b | a in preds && b in preds && a != b :: preds[a] != preds[b]
  }

  /** The tally after the complete trials cs have been visited, and also
      the predicates done of output o; counters for o's other predicates
      may already exist, still at zero. */
  ghost predicate TalliedPart(preds: map<string, PredicateOutput>, cs: seq<Completed>, o: TrialOutput, done: set<string>)
    reads preds.Values
  {
    && done <= o.preds.Keys
    && ReportedNames(cs) + done <= preds.Keys <= ReportedNames(cs) + o.preds.Keys
    && Separate(preds)
    && forall p | p in preds :: Counted(preds[p], Seen(cs, done, p), SeenSat(cs, o, done, p))
  }

  /** The reports of p so far: those of cs, and o's once p is done. */
  function Seen(cs: seq<Completed>, done: set<string>, p: string): nat
  {
    Reports(cs, p) + (if p in done then 1 else 0)
  }

  /** The satisfied reports of p so far. */
  function SeenSat(cs: seq<Completed>, o: TrialOutput, done: set<string>, p: string): nat
    requires done <= o.preds.Keys
  {
    SatReports(cs, p) + (if p in done && o.preds[p] then 1 else 0)
  }

  /** The tally after the complete trials cs: one counter per reported
      predicate, holding its reports, satisfied reports and their ratio. */
  ghost predicate Tallied(preds: map<string, PredicateOutput>, cs: seq<Completed>)
    reads preds.Values
  {
    && preds.Keys == ReportedNames(cs)
    && Separate(preds)
    && forall p | p in preds :: Counted(preds[p], Reports(cs, p), SatReports(cs, p))
  }

  /** Before any predicate of o is visited, the tally of cs is the partial one. */
  lemma TalliedStart(preds: map<string, PredicateOutput>, cs: seq<Completed>, o: TrialOutput)
    requires Tallied(preds, cs)
    ensures TalliedPart(preds, cs, o, {})
  {
  }

  /** Visiting every predicate of c's output turns the tally of cs into
      the tally of cs + [c]. */
  lemma TalliedSnoc(preds: map<string, PredicateOutput>, cs: seq<Completed>, c: Completed)
    requires TalliedPart(preds, cs, c.output, c.output.preds.Keys)
    ensures Tallied(preds, cs + [c])
  {
    var cs' := cs + [c];
    assert cs'[..|cs'| - 1] == cs;
  }

  /** `preds[k]` of std::map: the counter of k, default-constructed if it
      is missing. */
  method Ensure(preds: map<string, PredicateOutput>, ghost cs: seq<Completed>, o: TrialOutput,
                ghost done: set<string>, k: string)
    returns (preds': map<string, PredicateOutput>)
    requires TalliedPart(preds, cs, o, done)
    requires k in o.preds
    ensures TalliedPart(preds', cs, o, done)
    ensures preds'.Keys == preds.Keys + {k}
    ensures fresh(preds'.Values - preds.Values)
  {
    preds' := preds;
    if k !in preds' {
      ReportsBounds(cs, k);
      var added := new PredicateOutput();
      preds' := preds'[k := added];
    }
  }

  /** The counters of every predicate but k hold their partial tally. */
  ghost predicate OthersCounted(preds: map<string, PredicateOutput>, cs: seq<Completed>, o: TrialOutput,
                                done: set<string>, k: string)
    requires done <= o.preds.Keys
    reads set p | p in preds && p != k :: preds[p]
  {
    forall p | p in preds && p != k :: Counted(preds[p], Seen(cs, done, p), SeenSat(cs, o, done, p))
  }

  lemma OthersBefore(preds: map<string, PredicateOutput>, cs: seq<Completed>, o: TrialOutput,
                     done: set<string>, k: string)
    requires TalliedPart(preds, cs, o, done) && k in o.preds && k !in done
    ensures OthersCounted(preds, cs, o, done + {k}, k)
  {
    forall p | p in preds && p != k
      ensures Counted(preds[p], Seen(cs, done + {k}, p), SeenSat(cs, o, done + {k}, p))
    {
      assert Seen(cs, done + {k}, p) == Seen(cs, done, p);
      assert SeenSat(cs, o, done + {k}, p) == SeenSat(cs, o, done, p);
    }
  }

  lemma OthersAfter(preds: map<string, PredicateOutput>, cs: seq<Completed>, o: TrialOutput,
                    done: set<string>, k: string)
    requires done <= o.preds.Keys && k in preds && k in o.preds
    requires ReportedNames(cs) + done <= preds.Keys <= ReportedNames(cs) + o.preds.Keys
    requires Separate(preds)
    requires OthersCounted(preds, cs, o, done + {k}, k)
    requires Counted(preds[k], Seen(cs, done + {k}, k), SeenSat(cs, o, done + {k}, k))
    ensures TalliedPart(preds, cs, o, done + {k})
  {
  }

  /** One step of the inner loop: predicate k of output o gets add_sat
      or add_unsat on its counter. */
  method Bump(preds: map<string, PredicateOutput>, ghost cs: seq<Completed>, o: TrialOutput,
              ghost done: set<string>, k: string)
    requires TalliedPart(preds, cs, o, done)
    requires k in preds && k in o.preds && k !in done
    modifies preds[k]
    ensures TalliedPart(preds, cs, o, done + {k})
  {
    ReportsBounds(cs, k);
    var n, s := Reports(cs, k), SatReports(cs, k);
    var cur := preds[k];
    OthersBefore(preds, cs, o, done, k);
    if o.preds[k] {
      cur.AddSat();
    } else {
      cur.AddUnsat();
    }
    ghost var s' := s + (if o.preds[k] then 1 else 0);
    assert cur.count == n + 1 && cur.satCount == s' && cur.errorCount == 0;
    assert Seen(cs, done + {k}, k) == n + 1 && SeenSat(cs, o, done + {k}, k) == s';
    OthersAfter(preds, cs, o, done, k);
  }

  /** One step of the inner loop: the least predicate of o not yet
      visited gets its counter, created on first sight, bumped. */
  method Visit(preds: map<string, PredicateOutput>, ghost cs: seq<Completed>, o: TrialOutput,
               todo: set<string>, ghost done: set<string>)
    returns (preds': map<string, PredicateOutput>, todo': set<string>, ghost done': set<string>)
    requires todo != {} && todo + done == o.preds.Keys && todo !! done
    requires TalliedPart(preds, cs, o, done)
    modifies preds.Values
    ensures todo' + done' == o.preds.Keys && todo' !! done' && todo' < todo
    ensures TalliedPart(preds', cs, o, done')
    ensures fresh(preds'.Values - preds.Values)
  {
    var k := Least(todo);
    preds' := Ensure(preds, cs, o, done, k);
    Bump(preds', cs, o, done, k);
    todo' := todo - {k};
    done' := done + {k};
    MoveKey(todo, done, o.preds.Keys, k);
  }

  lemma MoveKey(todo: set<string>, done: set<string>, keys: set<string>, k: string)
    requires k in todo && todo + done == keys && todo !! done
    ensures (todo - {k}) + (done + {k}) == keys && (todo - {k}) !! (done + {k})
    ensures todo - {k} < todo
  {
  }

  /** The inner loop of the tally: the predicates of o, in key order. */
  method VisitAll(preds: map<string, PredicateOutput>, ghost cs: seq<Completed>, o: TrialOutput)
    returns (preds': map<string, PredicateOutput>)
    requires TalliedPart(preds, cs, o, {})
    modifies preds.Values
    ensures TalliedPart(preds', cs, o, o.preds.Keys)
    ensures fresh(preds'.Values - preds.Values)
  {
    var todo := o.preds.Keys;
    ghost var done: set<string> := {};
    preds' := preds;
    while todo != {}
      invariant todo + done == o.preds.Keys && todo !! done
      invariant TalliedPart(preds', cs, o, done)
      invariant fresh(preds'.Values - preds.Values)
      decreases todo
    {
      preds', todo, done := Visit(preds', cs, o, todo, done);
    }
  }

  /** The visit of one complete trial: each predicate it reports has its
      counter bumped. */
  method TallyOutput(preds: map<string, PredicateOutput>, c: Completed, ghost cs: seq<Completed>)
    returns (preds': map<string, PredicateOutput>)
    requires Tallied(preds, cs)
    modifies preds.Values
    ensures Tallied(preds', cs + [c])
    ensures fresh(preds'.Values - preds.Values)
  {
    TalliedStart(preds, cs, c.output);
    preds' := VisitAll(preds, cs, c.output);
    TalliedSnoc(preds', cs, c);
  }

  /** The tally loop of do_analysis: the complete trials are collected and
      every predicate they report is counted. */
  method Tally(data: seq<TrialRecord>) returns (preds: map<string, PredicateOutput>, trials: seq<Completed>)
    ensures trials == Completes(data)
    ensures Tallied(preds, trials)
    ensures fresh(preds.Values)
  {
    preds := map[];
    trials := [];
    for i := 0 to |data|
      invariant trials == Completes(data[..i])
      invariant Tallied(preds, trials)
      invariant fresh(preds.Values)
    {
      assert data[..i + 1][..i] == data[..i];
      if data[i].status.Complete? {
        var c := Completed(data[i].input, data[i].status.output);
        preds := TallyOutput(preds, c, trials);
        trials := trials + [c];
      }
    }
    assert data[..|data|] == data;
  }

  // ---------------------------------------------------------------------
  // The input matrix: one column per complete trial, one row per sample
  // key of the first complete trial.  Armadillo's element access is
  // bounds-checked, and the value is converted (xtd::dbl) before the
  // element is reached, as C++17 sequences the right operand of `=` first.

  /** A column of zeros: the cells no sample value reaches. */
  function Zeros(n: nat): (z: seq<real>)
    ensures |z| == n && forall i | 0 <= i < n :: z[i] == 0.0
  {
    seq(n, _ => 0.0)
  }

  /** The sample values of a trial in the iteration order of its map. */
  function SampleValues(sample: map<string, Value>): (vs: seq<Value>)
    ensures |vs| == |sample|
  {
    var keys := SortedKeys(sample.Keys);
    seq(|keys|, i requires 0 <= i < |keys| => sample[keys[i]])
  }

  /** The column a trial's sample values make in a matrix of `rows` rows. */
  function ColumnOf(vs: seq<Value>, rows: nat): (r: Result<seq<real>>)
    ensures r.Ok? ==> |r.value| == rows
    decreases |vs|
  {
    if vs == [] then Ok(Zeros(rows))
    else
      var col :- ColumnOf(vs[..|vs| - 1], rows);
      var d :- Dbl(vs[|vs| - 1]);
      if |vs| - 1 < rows then Ok(col[|vs| - 1 := d]) else Err(IndexOutOfBounds)
  }

  /** A column is built exactly when every value is a double and there are
      no more values than rows; its cells are the values, then zeros.  A
      string within the first rows + 1 values fails in xtd::dbl, and
      otherwise a value past the last row fails in the element access. */
  lemma {:induction false} ColumnMeaning(vs: seq<Value>, rows: nat)
    ensures ColumnOf(vs, rows).Ok? <==> |vs| <= rows && forall i | 0 <= i < |vs| :: vs[i].VDouble?
    ensures ColumnOf(vs, rows).Ok? ==>
      forall i | 0 <= i < rows :: ColumnOf(vs, rows).value[i] == if i < |vs| then vs[i].d else 0.0
    ensures ColumnOf(vs, rows) == Err(BadGet) <==> exists i | 0 <= i < |vs| && i <= rows :: vs[i].VString?
    ensures ColumnOf(vs, rows).Err? ==> ColumnOf(vs, rows).error in {BadGet, IndexOutOfBounds}
    decreases |vs|
  {
    if vs != [] {
      var init := vs[..|vs| - 1];
      ColumnMeaning(init, rows);
      assert forall i | 0 <= i < |init| :: init[i] == vs[i];
    }
  }

  /** Once a prefix of the values fails, the whole column fails the same way. */
  lemma {:induction false} ColumnStops(vs: seq<Value>, k: nat, rows: nat)
    requires k <= |vs| && ColumnOf(vs[..k], rows).Err?
    ensures ColumnOf(vs, rows) == ColumnOf(vs[..k], rows)
    decreases |vs|
  {
    if k < |vs| {
      var init := vs[..|vs| - 1];
      assert init[..k] == vs[..k];
      ColumnStops(init, k, rows);
    } else {
      assert vs[..k] == vs;
    }
  }

  /** The column of one complete trial. */
  function TrialColumn(t: Completed, rows: nat): (r: Result<seq<real>>)
    ensures r.Ok? ==> |r.value| == rows
  {
    ColumnOf(SampleValues(t.input.sample), rows)
  }

  /** The columns gathered one by one; the first column that fails stops
      the build with its error. */
  function Collect(cols: seq<Result<seq<real>>>): (r: Result<seq<seq<real>>>)
    ensures r.Ok? ==> |r.value| == |cols|
    decreases |cols|
  {
    if cols == [] then Ok([])
    else
      var m :- Collect(cols[..|cols| - 1]);
      var col :- cols[|cols| - 1];
      Ok(m + [col])
  }

  /** The gathering succeeds exactly when every column does, and column c
      is then the c-th one. */
  lemma {:induction false} CollectMeaning(cols: seq<Result<seq<real>>>)
    ensures Collect(cols).Ok? <==> forall c | 0 <= c < |cols| :: cols[c].Ok?
    ensures Collect(cols).Ok? ==> forall c | 0 <= c < |cols| :: Collect(cols).value[c] == cols[c].value
    decreases |cols|
  {
    if cols != [] {
      var init := cols[..|cols| - 1];
      CollectMeaning(init);
      assert forall c | 0 <= c < |init| :: init[c] == cols[c];
    }
  }

  /** A failed gathering fails with the error of the first column that fails. */
  lemma {:induction false} CollectError(cols: seq<Result<seq<real>>>)
    requires Collect(cols).Err?
    ensures exists c | 0 <= c < |cols| ::
      cols[c] == Err(Collect(cols).error) && forall c' | 0 <= c' < c :: cols[c'].Ok?
    decreases |cols|
  {
    var init := cols[..|cols| - 1];
    assert forall c | 0 <= c < |init| :: init[c] == cols[c];
    if Collect(init).Err? {
      CollectError(init);
    } else {
      CollectMeaning(init);
      assert cols[|init|] == Err(Collect(cols).error);
    }
  }

  /** Once a prefix of the columns fails, the whole gathering fails the same way. */
  lemma {:induction false} CollectStops(cols: seq<Result<seq<real>>>, k: nat)
    requires k <= |cols| && Collect(cols[..k]).Err?
    ensures Collect(cols) == Collect(cols[..k])
    decreases |cols|
  {
    if k < |cols| {
      var init := cols[..|cols| - 1];
      assert init[..k] == cols[..k];
      CollectStops(init, k);
    } else {
      assert cols[..k] == cols;
    }
  }

  /** The column of every complete trial, in order. */
  function TrialColumns(trials: seq<Completed>, rows: nat): (cols: seq<Result<seq<real>>>)
    ensures |cols| == |trials|
    ensures forall c | 0 <= c < |trials| :: cols[c] == TrialColumn(trials[c], rows)
  {
    seq(|trials|, c requires 0 <= c < |trials| => TrialColumn(trials[c], rows))
  }

  /** The input matrix, as its columns: each column has `rows` cells. */
  function InputMatrix(trials: seq<Completed>, rows: nat): (r: Result<seq<seq<real>>>)
    ensures r.Ok? ==> |r.value| == |trials| && forall c | 0 <= c < |trials| :: |r.value[c]| == rows
  {
    var cols := TrialColumns(trials, rows);
    CollectMeaning(cols);
    Collect(cols)
  }

  /** The matrix is built exactly when every trial's column is; column c
      is then trial c's, and otherwise the error is that of the first
      trial whose column fails. */
  lemma MatrixMeaning(trials: seq<Completed>, rows: nat)
    ensures InputMatrix(trials, rows).Ok? <==> forall c | 0 <= c < |trials| :: TrialColumn(trials[c], rows).Ok?
    ensures InputMatrix(trials, rows).Ok? ==>
      forall c | 0 <= c < |trials| :: InputMatrix(trials, rows).value[c] == TrialColumn(trials[c], rows).value
    ensures InputMatrix(trials, rows).Err? ==>
      exists c | 0 <= c < |trials| ::
        && TrialColumn(trials[c], rows) == Err(InputMatrix(trials, rows).error)
        && forall c' | 0 <= c' < c :: TrialColumn(trials[c'], rows).Ok?
  {
    var cols := TrialColumns(trials, rows);
    CollectMeaning(cols);
    if Collect(cols).Err? {
      CollectError(cols);
    }
  }

  /** Every sample value of a complete trial must be a double for the
      matrix to be built: a string sample makes the analysis fail. */
  lemma StringSampleFails(trials: seq<Completed>, rows: nat, c: nat, key: string)
    requires c < |trials| && key in trials[c].input.sample && trials[c].input.sample[key].VString?
    ensures InputMatrix(trials, rows).Err?
  {
    var sample := trials[c].input.sample;
    var keys := SortedKeys(sample.Keys);
    var i :| 0 <= i < |keys| && keys[i] == key;
    MatrixMeaning(trials, rows);
    ColumnMeaning(SampleValues(sample), rows);
    assert TrialColumn(trials[c], rows) == ColumnOf(SampleValues(sample), rows);
    assert SampleValues(sample)[i].VString?;
  }

  /** The matrix holds the columns `cols`, cell by cell. */
  ghost predicate MatrixHolds(inputs: array2<real>, cols: seq<seq<real>>)
    reads inputs
  {
    && |cols| == inputs.Length1
    && (forall c | 0 <= c < |cols| :: |cols[c]| == inputs.Length0)
    && forall i, c | 0 <= i < inputs.Length0 && 0 <= c < inputs.Length1 :: inputs[i, c] == cols[c][i]
  }

  /** n columns of zeros. */
  function ZeroColumns(n: nat, rows: nat): (z: seq<seq<real>>)
    ensures |z| == n && forall c | 0 <= c < n :: z[c] == Zeros(rows)
  {
    seq(n, _ => Zeros(rows))
  }

  /** The inner loop of the matrix build: the sample values of one trial,
      in key order, go down column col. */
  method FillColumn(inputs: array2<real>, col: nat, vs: seq<Value>, ghost cols: seq<seq<real>>)
    returns (r: Result<()>)
    requires MatrixHolds(inputs, cols) && col < |cols| && cols[col] == Zeros(inputs.Length0)
    modifies inputs
    ensures r.Ok? <==> ColumnOf(vs, inputs.Length0).Ok?
    ensures r.Err? ==> r.error == ColumnOf(vs, inputs.Length0).error
    ensures r.Ok? ==> MatrixHolds(inputs, cols[col := ColumnOf(vs, inputs.Length0).value])
  {
    var rows := inputs.Length0;
    for row := 0 to |vs|
      invariant ColumnOf(vs[..row], rows).Ok?
      invariant MatrixHolds(inputs, cols[col := ColumnOf(vs[..row], rows).value])
    {
      assert vs[..row + 1][..row] == vs[..row];
      var d := Dbl(vs[row]);
      if d.Err? {
        ColumnStops(vs, row + 1, rows);
        return Err(d.error);
      }
      if row >= rows {
        ColumnStops(vs, row + 1, rows);
        return Err(IndexOutOfBounds);
      }
      inputs[row, col] := d.value;
    }
    assert vs[..|vs|] == vs;
    return Ok(());
  }

  lemma PadStep(m: seq<seq<real>>, col: seq<real>, n: nat, rows: nat)
    requires n > 0
    ensures (m + ZeroColumns(n, rows))[|m| := col] == (m + [col]) + ZeroColumns(n - 1, rows)
  {
    assert (m + ZeroColumns(n, rows))[|m| := col] == (m + [col]) + ZeroColumns(n - 1, rows);
  }

  /** The first `col` columns are built and the others are still zero. */
  ghost predicate Built(inputs: array2<real>, cols: seq<Result<seq<real>>>, col: nat, rows: nat)
    requires col <= |cols|
    reads inputs
  {
    && Collect(cols[..col]).Ok?
    && (forall c | 0 <= c < col :: |Collect(cols[..col]).value[c]| == rows)
    && MatrixHolds(inputs, Collect(cols[..col]).value + ZeroColumns(|cols| - col, rows))
  }

  /** One step of the matrix build: the column of trial col. */
  method AddColumn(inputs: array2<real>, trials: seq<Completed>, col: nat, rows: nat,
                   ghost cols: seq<Result<seq<real>>>)
    returns (r: Result<()>)
    requires cols == TrialColumns(trials, rows) && col < |trials| && inputs.Length0 == rows
    requires Built(inputs, cols, col, rows)
    modifies inputs
    ensures r.Ok? ==> Built(inputs, cols, col + 1, rows)
    ensures r.Err? ==> Collect(cols).Err? && r.error == Collect(cols).error
  {
    assert cols[..col + 1][..col] == cols[..col];
    ghost var m := Collect(cols[..col]).value;
    r := FillColumn(inputs, col, SampleValues(trials[col].input.sample), m + ZeroColumns(|trials| - col, rows));
    if r.Err? {
      CollectStops(cols, col + 1);
    } else {
      ghost var v := TrialColumn(trials[col], rows).value;
      PadStep(m, v, |trials| - col, rows);
      assert Collect(cols[..col + 1]) == Ok(m + [v]);
      assert forall c | 0 <= c < col + 1 :: |(m + [v])[c]| == rows;
    }
  }

  /** The matrix build: one column per complete trial, `rows` rows. */
  method BuildInputs(trials: seq<Completed>, rows: nat) returns (r: Result<array2<real>>)
    ensures r.Ok? <==> InputMatrix(trials, rows).Ok?
    ensures r.Err? ==> r.error == InputMatrix(trials, rows).error
    ensures r.Ok? ==> fresh(r.value) && MatrixHolds(r.value, InputMatrix(trials, rows).value)
  {
    ghost var cols := TrialColumns(trials, rows);
    var inputs := new real[rows, |trials|]((i, j) => 0.0);
    assert cols[..0] == [];
    assert MatrixHolds(inputs, [] + ZeroColumns(|trials|, rows));
    for col := 0 to |trials|
      invariant Built(inputs, cols, col, rows)
    {
      var added := AddColumn(inputs, trials, col, rows, cols);
      if added.Err? {
        return Err(added.error);
      }
    }
    assert cols[..|trials|] == cols;
    assert Collect(cols).value + ZeroColumns(0, rows) == Collect(cols).value;
    return Ok(inputs);
  }

  /** The matrix handed to the regression: its columns, as values. */
  function Columns(inputs: array2<real>): (cols: seq<seq<real>>)
    reads inputs
    ensures MatrixHolds(inputs, cols)
  {
    seq(inputs.Length1, c requires 0 <= c < inputs.Length1 reads inputs =>
      seq(inputs.Length0, i requires 0 <= i < inputs.Length0 reads inputs => inputs[i, c]))
  }

  /** A matrix holds one sequence of columns only. */
  lemma ColumnsUnique(inputs: array2<real>, cols: seq<seq<real>>)
    requires MatrixHolds(inputs, cols)
    ensures Columns(inputs) == cols
  {
    var m := Columns(inputs);
    forall c | 0 <= c < |cols| ensures m[c] == cols[c] {
      assert forall i | 0 <= i < inputs.Length0 :: m[c][i] == inputs[i, c];
    }
  }

  // ---------------------------------------------------------------------
  // The output row of each predicate and its coefficients.

  /** The output row of predicate p: its value in every complete trial, or
      std::out_of_range from `at` when some complete trial lacks it. */
  function OutputsOf(trials: seq<Completed>, p: string): (r: Result<seq<bool>>)
  {
    if forall c | 0 <= c < |trials| :: p in trials[c].output.preds then
      Ok(seq(|trials|, c requires 0 <= c < |trials| && p in trials[c].output.preds => trials[c].output.preds[p]))
    else Err(OutOfRange)
  }

  /** The row of p is built exactly when every complete trial reports p,
      which is when the tally counted p once per complete trial. */
  lemma OutputsNeedEveryTrial(trials: seq<Completed>, p: string)
    ensures OutputsOf(trials, p).Ok? <==> Reports(trials, p) == |trials|
    ensures OutputsOf(trials, p).Ok? ==>
      |OutputsOf(trials, p).value| == |trials| &&
      forall c | 0 <= c < |trials| :: OutputsOf(trials, p).value[c] == trials[c].output.preds[p]
    ensures OutputsOf(trials, p).Err? ==> OutputsOf(trials, p).error == OutOfRange
  {
    ReportsAll(trials, p);
  }

  /** The output row loop for one predicate. */
  method PredOutputs(trials: seq<Completed>, p: string) returns (r: Result<seq<bool>>)
    ensures r == OutputsOf(trials, p)
  {
    var outputs := new bool[|trials|];
    for col := 0 to |trials|
      invariant forall c | 0 <= c < col :: p in trials[c].output.preds && outputs[c] == trials[c].output.preds[p]
    {
      if p !in trials[col].output.preds {
        return Err(OutOfRange);
      }
      outputs[col] := trials[col].output.preds[p];
    }
    assert forall c | 0 <= c < |trials| :: p in trials[c].output.preds;
    assert outputs[..] == OutputsOf(trials, p).value;
    return Ok(outputs[..]);
  }

  /** The keys of a std::map in order are pairwise distinct. */
  lemma SortedKeysDistinct(keys: seq<string>, j: nat)
    requires StrictlySorted(keys) && j < |keys|
    ensures keys[j] !in keys[..j]
  {
    if keys[j] in keys[..j] {
      var i :| 0 <= i < j && keys[i] == keys[j];
      StrLtIrreflexive(keys[j]);
    }
  }

  /** The coefficients of one predicate: the intercept params[0] under "",
      and params[j + 1] under the j-th sample key of the first complete
      trial (the key of row j of the matrix); a sample key "" overwrites
      the intercept. */
  ghost predicate CoeffsFor(coeffs: map<string, real>, sample: map<string, Value>, params: seq<real>)
    requires |params| == |sample| + 1
  {
    var keys := SortedKeys(sample.Keys);
    && coeffs.Keys == sample.Keys + {""}
    && (forall j | 0 <= j < |keys| :: coeffs[keys[j]] == params[j + 1])
    && ("" !in sample ==> coeffs[""] == params[0])
  }

  /** The coefficients after the first j sample keys. */
  ghost predicate CoeffsUpTo(coeffs: map<string, real>, keys: seq<string>, params: seq<real>, j: nat)
    requires j <= |keys| && |params| == |keys| + 1
  {
    && (forall k :: k in coeffs <==> k == "" || k in keys[..j])
    && (forall i | 0 <= i < j :: coeffs[keys[i]] == params[i + 1])
    && ("" !in keys[..j] ==> coeffs[""] == params[0])
  }

  lemma CoeffsStep(coeffs: map<string, real>, keys: seq<string>, params: seq<real>, j: nat)
    requires StrictlySorted(keys) && j < |keys| && |params| == |keys| + 1
    requires CoeffsUpTo(coeffs, keys, params, j)
    ensures CoeffsUpTo(coeffs[keys[j] := params[j + 1]], keys, params, j + 1)
  {
    SortedKeysDistinct(keys, j);
    assert keys[..j + 1] == keys[..j] + [keys[j]];
  }

  lemma CoeffsDone(coeffs: map<string, real>, sample: map<string, Value>, params: seq<real>)
    requires |params| == |sample| + 1
    requires CoeffsUpTo(coeffs, SortedKeys(sample.Keys), params, |sample|)
    ensures CoeffsFor(coeffs, sample, params)
  {
    var keys := SortedKeys(sample.Keys);
    assert keys[..|keys|] == keys;
  }

  /** The coefficient loop: lpo_coeffs[""] = params[0], then one entry per
      sample key with col counting from 1. */
  method Coefficients(sample: map<string, Value>, params: seq<real>) returns (coeffs: map<string, real>)
    requires |params| == |sample| + 1
    ensures CoeffsFor(coeffs, sample, params)
  {
    var keys := SortedKeys(sample.Keys);
    SortedKeysSorted(sample.Keys);
    coeffs := map["" := params[0]];
    var col := 1;
    for j := 0 to |keys|
      invariant col == j + 1
      invariant CoeffsUpTo(coeffs, keys, params, j)
    {
      CoeffsStep(coeffs, keys, params, j);
      coeffs := coeffs[keys[j] := params[col]];
      col := col + 1;
    }
    CoeffsDone(coeffs, sample, params);
  }

  // ---------------------------------------------------------------------
  // The regression over every tallied predicate.

  /** The coefficients of every predicate in names after the first j
      visited: each one's row exists and its coefficients come from
      regressing the matrix against that row. */
  ghost predicate Fitted(coeffs: map<string, map<string, real>>, trials: seq<Completed>, done: set<string>,
                         first: map<string, Value>, inputs: seq<seq<real>>,
                         regress: (seq<seq<real>>, seq<bool>) -> seq<real>)
    requires forall o: seq<bool> :: |regress(inputs, o)| == |first| + 1
  {
    && coeffs.Keys == done
    && forall p | p in done :: FitOf(coeffs[p], trials, p, first, inputs, regress)
  }

  /** The coefficients of p: its output row exists and they come from
      regressing the matrix against that row. */
  ghost predicate FitOf(c: map<string, real>, trials: seq<Completed>, p: string,
                        first: map<string, Value>, inputs: seq<seq<real>>,
                        regress: (seq<seq<real>>, seq<bool>) -> seq<real>)
    requires forall o: seq<bool> :: |regress(inputs, o)| == |first| + 1
  {
    OutputsOf(trials, p).Ok? && CoeffsFor(c, first, regress(inputs, OutputsOf(trials, p).value))
  }

  lemma FittedStep(coeffs: map<string, map<string, real>>, trials: seq<Completed>, done: set<string>,
                   first: map<string, Value>, inputs: seq<seq<real>>,
                   regress: (seq<seq<real>>, seq<bool>) -> seq<real>, p: string, c: map<string, real>)
    requires forall o: seq<bool> :: |regress(inputs, o)| == |first| + 1
    requires Fitted(coeffs, trials, done, first, inputs, regress)
    requires FitOf(c, trials, p, first, inputs, regress)
    ensures Fitted(coeffs[p := c], trials, done + {p}, first, inputs, regress)
  {
    var coeffs' := coeffs[p := c];
    forall q | q in done + {p} ensures FitOf(coeffs'[q], trials, q, first, inputs, regress) {
      if q != p {
        assert coeffs'[q] == coeffs[q];
      }
    }
  }

  /** One step of the predicate loop: the output row of p, the regression
      and the coefficients. */
  method Fit(trials: seq<Completed>, p: string, first: map<string, Value>, inputs: seq<seq<real>>,
             regress: (seq<seq<real>>, seq<bool>) -> seq<real>)
    returns (r: Result<map<string, real>>)
    requires forall o: seq<bool> :: |regress(inputs, o)| == |first| + 1
    ensures r.Ok? <==> OutputsOf(trials, p).Ok?
    ensures r.Err? ==> r.error == OutOfRange
    ensures r.Ok? ==> CoeffsFor(r.value, first, regress(inputs, OutputsOf(trials, p).value))
    ensures r.Ok? ==> FitOf(r.value, trials, p, first, inputs, regress)
  {
    var outputs :- PredOutputs(trials, p);
    var params := regress(inputs, outputs);
    var coeffs := Coefficients(first, params);
    return Ok(coeffs);
  }

  /** The loop over the tallied predicates, in key order; the first
      predicate missing from some complete trial stops it with
      std::out_of_range. */
  method FitAll(trials: seq<Completed>, names: set<string>, first: map<string, Value>, inputs: seq<seq<real>>,
                regress: (seq<seq<real>>, seq<bool>) -> seq<real>)
    returns (r: Result<map<string, map<string, real>>>)
    requires forall o: seq<bool> :: |regress(inputs, o)| == |first| + 1
    ensures r.Ok? <==> forall p | p in names :: OutputsOf(trials, p).Ok?
    ensures r.Err? ==> r.error == OutOfRange
    ensures r.Ok? ==> Fitted(r.value, trials, names, first, inputs, regress)
  {
    var coeffs := map[];
    var todo := names;
    ghost var done := {};
    while todo != {}
      invariant todo + done == names && todo !! done
      invariant Fitted(coeffs, trials, done, first, inputs, regress)
      decreases todo
    {
      var p := Least(todo);
      var c := Fit(trials, p, first, inputs, regress);
      if c.Err? {
        return Err(c.error);
      }
      FittedStep(coeffs, trials, done, first, inputs, regress, p, c.value);
      coeffs := coeffs[p := c.value];
      MoveKey(todo, done, names, p);
      todo, done := todo - {p}, done + {p};
    }
    return Ok(coeffs);
  }

  /** What the analysis returns: the tallied predicates and, for each, the
      coefficients of its logistic model. */
  datatype Analysis = Analysis(preds: map<string, PredicateOutput>, coeffs: map<string, map<string, real>>)

  /** The row count of the matrix: the sample size of the first complete
      trial. */
  function Rows(trials: seq<Completed>): (n: nat)
    requires trials != []
    ensures n == |SampleValues(trials[0].input.sample)|
  {
    |trials[0].input.sample|
  }

  /** do_analysis: the tally, then (when some trial completed) the input
      matrix and one regression per tallied predicate. The regression
      itself is the parameter regress, which returns one parameter per
      matrix row plus the intercept. */
  method DoAnalysis(data: seq<TrialRecord>, regress: (seq<seq<real>>, seq<bool>) -> seq<real>)
    returns (r: Result<Analysis>)
    requires forall m: seq<seq<real>>, o: seq<bool> | m != [] :: |regress(m, o)| == |m[0]| + 1
    ensures Completes(data) == [] ==> r.Ok? && r.value.coeffs == map[]
    ensures Completes(data) != [] ==>
      var cs := Completes(data);
      && (r.Ok? <==> InputMatrix(cs, Rows(cs)).Ok? && forall p | p in ReportedNames(cs) :: OutputsOf(cs, p).Ok?)
      && (r.Err? && InputMatrix(cs, Rows(cs)).Err? ==> r.error == InputMatrix(cs, Rows(cs)).error)
      && (r.Err? && InputMatrix(cs, Rows(cs)).Ok? ==> r.error == OutOfRange)
      && (r.Ok? ==> Fitted(r.value.coeffs, cs, ReportedNames(cs), cs[0].input.sample, InputMatrix(cs, Rows(cs)).value, regress))
    ensures r.Ok? ==> Tallied(r.value.preds, Completes(data)) && fresh(r.value.preds.Values)
  {
    var preds, trials := Tally(data);
    if |trials| == 0 {
      return Ok(Analysis(preds, map[]));
    }
    var first := trials[0].input.sample;
    var built :- BuildInputs(trials, |first|);
    var inputs := Columns(built);
    ColumnsUnique(built, InputMatrix(trials, |first|).value);
    assert |inputs| == |trials| && |inputs[0]| == |first|;
    var coeffs :- FitAll(trials, preds.Keys, first, inputs, regress);
    return Ok(Analysis(preds, coeffs));
  }

  /** The regression loop builds every output row exactly when all complete
      trials report the same set of predicates. */
  lemma RowsNeedSamePreds(cs: seq<Completed>)
    ensures (forall p | p in ReportedNames(cs) :: OutputsOf(cs, p).Ok?) <==>
            forall c | 0 <= c < |cs| :: cs[c].output.preds.Keys == ReportedNames(cs)
  {
    ReportedNamesMeaning(cs);
  }
}
