/** The geometric-mean policy as written and as evidently intended. The
    source computes `anomaly_likehood` with `multiply.reduce`, a name the
    module never defines or imports (numpy is imported as `np`), so the
    first date that passes the validity gate raises `NameError`. */
module Findings {
  import opened Values
  import opened Reconcile
  import opened FeatureStore
  import opened Engine
  import opened Properties

  /** The aggregate as written: the geometric-mean branch raises
      `NameError`; the log policy yields `logSum` of the slice. */
  function AsWrittenAggregate(logSum: Slice -> Num): Aggregate {
    (p: Policy, sl: Slice) => if p == GeometricMean then Raise(NameError) else Ok(logSum(sl))
  }

  /** The aggregate as intended: both policies yield a value. */
  function CorrectedAggregate(mean: (Policy, Slice) -> Num): Aggregate {
    (p: Policy, sl: Slice) => Ok(mean(p, sl))
  }

  /** Under the as-written aggregate, one employee's step of
      `anomaly_likehood` collects nothing; once the loader has an entry for
      the employee, the only exception it can raise is `NameError`. */
  lemma AsWrittenStepWritesNothing(env: Env, emp: string, idx: nat, s: Store, logSum: Slice -> Num)
    requires env.st.policy == GeometricMean && env.st.agg == AsWrittenAggregate(logSum)
    ensures EmployeeStep(env, emp, idx, s).Ok? ==> EmployeeStep(env, emp, idx, s).value == Outcome(s, [])
    ensures emp in env.cal && EmployeeStep(env, emp, idx, s).Raise? ==> EmployeeStep(env, emp, idx, s).exc == NameError
  {
    var series := LoadSeries(s, env.cal, env.names, emp, env.end);
    forall x | x in series
      ensures DateResult(env.st, emp, x) == Ok(None) || DateResult(env.st, emp, x) == Raise(NameError)
    {
      assert forall sl :: env.st.agg(env.st.policy, sl) == Raise(NameError);
    }
    CollectCompletes(env.st, emp, series);
    if Collect(env.st, emp, series).Ok? {
      CollectQuiet(env.st, emp, series);
    }
  }

  /** The employee loop under the as-written aggregate commits nothing, and
      when the loader has an entry for every employee it can stop only at
      `NameError`. */
  lemma {:induction false} AsWrittenRunWritesNothing(env: Env, emps: seq<string>, start: nat, s: Store, logSum: Slice -> Num)
    requires env.st.policy == GeometricMean && env.st.agg == AsWrittenAggregate(logSum)
    ensures RunEmployees(env, emps, start, s).log == [] && RunEmployees(env, emps, start, s).store == s
    ensures (forall e :: e in emps ==> e in env.cal) && RunEmployees(env, emps, start, s).Aborted? ==>
      RunEmployees(env, emps, start, s).exc == NameError
    decreases |emps|
  {
    if |emps| > 0 {
      AsWrittenStepWritesNothing(env, emps[0], start, s, logSum);
      var step := EmployeeStep(env, emps[0], start, s);
      assert emps[0] in emps;
      assert forall e :: e in emps[1..] ==> e in emps;
      if step.Ok? {
        var rest := RunEmployees(env, emps[1..], start + 1, s);
        AsWrittenRunWritesNothing(env, emps[1..], start + 1, s, logSum);
        assert step.value.log + rest.log == [];
      }
    }
  }

  /** As written, a call for `anomaly_likehood` never changes the table and
      attempts no commit; for a configured feature and a loader with an entry
      for every employee, the only exception it raises is `NameError`. */
  lemma AsWrittenWritesNothing(startDate: int, endDate: int, employees: seq<string>,
                               activities: Activities, config: Config, cal: Calendar,
                               logSum: Slice -> Num, ok: (nat, Kind) -> bool, s: Store)
    ensures var r := Call(AnomalyLikelihood, startDate, endDate, employees, activities, config, cal,
                          AsWrittenAggregate(logSum), ok, s);
      && r.log == [] && r.store == s
      && ((AnomalyLikelihood in config && config[AnomalyLikelihood].Some? &&
           (forall e :: e in employees ==> e in cal) && r.Raised?) ==> r.exc == NameError)
  {
    if AnomalyLikelihood in config && config[AnomalyLikelihood].Some? {
      var env := CallEnv(AnomalyLikelihood, config[AnomalyLikelihood].value, endDate, activities, cal,
                         AsWrittenAggregate(logSum), ok);
      AsWrittenRunWritesNothing(env, employees, 0, s, logSum);
    }
  }

  // A one-day example: employee "e" has one day (date 1, activity 7) with a
  // stored base probability and no derived value yet.

  const Emp: string := "e"
  const Cal: Calendar := map[Emp := [Day(1, 7)]]
  const Acts: Activities := map[Emp := map[1 := 7]]
  const Cfg: Config := map[AnomalyLikelihood := Some(["a"])]
  const Table: Store := map[(7, "a_prob") := Fin(0.5)]

  /** As written, the example raises `NameError` and writes nothing, although
      its one day passes the gate and has no stored derived value. */
  lemma AsWrittenExampleRaises(logSum: Slice -> Num, ok: (nat, Kind) -> bool)
    ensures Call(AnomalyLikelihood, 0, 1, [Emp], Acts, Cfg, Cal, AsWrittenAggregate(logSum), ok, Table) ==
      Raised(NameError, Table, [])
  {
    var env := CallEnv(AnomalyLikelihood, ["a"], 1, Acts, Cal, AsWrittenAggregate(logSum), ok);
    ExampleSlice(env);
    var x := Dated(1, map["a_prob" := Fin(0.5)]);
    assert DateResult(env.st, Emp, x) == Raise(NameError);
    assert EmployeeStep(env, Emp, 0, Table) == Raise(NameError);
  }

  /** The example's names, and the slice its one day loads. */
  lemma ExampleSlice(env: Env)
    requires env == CallEnv(AnomalyLikelihood, ["a"], 1, env.st.activities, env.cal, env.st.agg, env.ok)
    ensures env.names == ["a_prob", AnomalyLikelihood]
    ensures SliceOf(Table, 7, env.names) == map["a_prob" := Fin(0.5)]
    ensures LoadSeries(Table, Cal, env.names, Emp, 1) == [Dated(1, map["a_prob" := Fin(0.5)])]
  {
    var rc := MakeRecipe(["a"], AnomalyLikelihood);
    assert rc.probNames[0] == "a" + ProbSuffix == "a_prob";
    assert rc.probNames == ["a_prob"];
    var names := env.names;
    var sl := SliceOf(Table, 7, names);
    assert "a_prob" in sl;
    assert AnomalyLikelihood !in sl by {
      assert (7, AnomalyLikelihood) !in Table;
    }
  }

  /** Corrected, a call for a configured feature whose lookup table covers
      every loaded day always returns normally. */
  lemma CorrectedCompletes(featureName: string, startDate: int, endDate: int, employees: seq<string>,
                           activities: Activities, config: Config, cal: Calendar,
                           mean: (Policy, Slice) -> Num, ok: (nat, Kind) -> bool, s: Store)
    requires featureName in config && config[featureName].Some?
    requires Covered(CallEnv(featureName, config[featureName].value, endDate, activities, cal,
                             CorrectedAggregate(mean), ok), employees)
    ensures Call(featureName, startDate, endDate, employees, activities, config, cal,
                 CorrectedAggregate(mean), ok, s).Returned?
  {
    CallCompletes(featureName, startDate, endDate, employees, activities, config, cal,
                  CorrectedAggregate(mean), ok, s);
  }

  /** The example's one date, corrected, is an insert. */
  lemma ExampleInsertRow(env: Env, x: Dated, row: Action)
    requires env.st == Setting(AnomalyLikelihood, GeometricMean, 1, env.st.agg, Acts)
    requires env.st.agg(GeometricMean, map["a_prob" := Fin(0.5)]) == Ok(Fin(0.5))
    requires x == Dated(1, map["a_prob" := Fin(0.5)]) && row == Action(Insert, 7, AnomalyLikelihood, Fin(0.5))
    ensures DateResult(env.st, Emp, x) == Ok(Some(row))
  {
    var e := ExtractPrev(x.slice, AnomalyLikelihood);
    assert e == Extracted(None, x.slice);
    assert |x.slice| == 1;
  }

  /** Corrected, the example inserts the geometric mean of its one day. */
  lemma CorrectedExampleInserts(mean: (Policy, Slice) -> Num)
    requires mean(GeometricMean, map["a_prob" := Fin(0.5)]) == Fin(0.5)
    ensures var row := Action(Insert, 7, AnomalyLikelihood, Fin(0.5));
      Call(AnomalyLikelihood, 0, 1, [Emp], Acts, Cfg, Cal, CorrectedAggregate(mean), (i: nat, k: Kind) => true, Table) ==
        Returned([], [], [], Table[(7, AnomalyLikelihood) := Fin(0.5)], [Txn(0, Insert, [row], true)])
  {
    var env := CallEnv(AnomalyLikelihood, ["a"], 1, Acts, Cal, CorrectedAggregate(mean), (i: nat, k: Kind) => true);
    var row := Action(Insert, 7, AnomalyLikelihood, Fin(0.5));
    ExampleSlice(env);
    var x := Dated(1, map["a_prob" := Fin(0.5)]);
    ExampleInsertRow(env, x, row);
    assert [x][1..] == [];
    assert Collect(env.st, Emp, []) == Ok(Batches([], [], []));
    assert File(Some(row), Batches([], [], [])) == Batches([row], [], []);
    assert Collect(env.st, Emp, [x]) == Ok(Batches([row], [], []));
    var o := CommitBatches(Table, 0, Batches([row], [], []), env.ok);
    assert [row][1..] == [];
    assert ApplyRows(Table, [row]) == Table[(7, AnomalyLikelihood) := Fin(0.5)];
    assert !Clashes(Table, Insert, [row]) by {
      assert forall r :: r in [row] ==> r == row;
      assert KeyOf(row) !in Table;
    }
    assert AttemptLog(Table, 0, Batches([row], [], []), env.ok) == [Txn(0, Insert, [row], true)];
    assert o == Outcome(Table[(7, AnomalyLikelihood) := Fin(0.5)], [Txn(0, Insert, [row], true)]);
    assert EmployeeStep(env, Emp, 0, Table) == Ok(o);
    assert [Emp][1..] == [];
    assert RunEmployees(env, [Emp], 0, Table) == Done(o.store, o.log);
  }
}
