/** Properties of the engine: what a batch does to the table, the frame of a
    call, failure isolation, and idempotence of a second run. */
module Properties {
  import opened Values
  import opened Reconcile
  import opened FeatureStore
  import opened Engine

  // ---------------------------------------------------------------- table

  /** Applying two row lists one after the other is applying their concatenation. */
  lemma {:induction false} ApplyRowsConcat(s: Store, r1: seq<Action>, r2: seq<Action>)
    ensures ApplyRows(s, r1 + r2) == ApplyRows(ApplyRows(s, r1), r2)
    decreases |r1|
  {
    if |r1| == 0 {
      assert r1 + r2 == r2;
    } else {
      assert (r1 + r2)[0] == r1[0];
      assert (r1 + r2)[1..] == r1[1..] + r2;
      ApplyRowsConcat(ApplyRow(s, r1[0]), r1[1..], r2);
    }
  }

  /** When every row addressing key `k` is the same action `a` (however
      often it occurs), the key ends up as `a` makes it, or untouched when
      no row addresses it. */
  lemma {:induction false} RowsAt(s: Store, rows: seq<Action>, k: Key, a: Action)
    requires forall r :: r in rows && KeyOf(r) == k ==> r == a
    ensures At(ApplyRows(s, rows), k) == if a in rows && KeyOf(a) == k then Effect(a, At(s, k)) else At(s, k)
    decreases |rows|
  {
    if |rows| > 0 {
      assert forall r :: r in rows[1..] ==> r in rows;
      assert a in rows <==> a == rows[0] || a in rows[1..];
      RowsAt(ApplyRow(s, rows[0]), rows[1..], k, a);
    }
  }

  /** A log none of whose rows addresses `k` leaves `k` as it was. */
  lemma {:induction false} ReplayUntouched(s: Store, log: seq<Txn>, k: Key)
    requires forall t, r :: t in log && r in t.rows ==> KeyOf(r) != k
    ensures At(Replay(s, log), k) == At(s, k)
    decreases |log|
  {
    if |log| > 0 {
      assert forall t :: t in log[1..] ==> t in log;
      assert forall i :: 0 <= i < |log[0].rows| ==> log[0].rows[i] in log[0].rows;
      ReplayUntouched(if log[0].committed then ApplyRows(s, log[0].rows) else s, log[1..], k);
    }
  }

  /** Base features are never changed: after a call, every row whose
      feature name is not the derived one is exactly as before. */
  lemma BaseFeaturesUntouched(featureName: string, startDate: int, endDate: int, employees: seq<string>,
                              activities: Activities, config: Config, cal: Calendar, agg: Aggregate,
                              ok: (nat, Kind) -> bool, s: Store, k: Key)
    requires k.1 != featureName
    ensures At(Call(featureName, startDate, endDate, employees, activities, config, cal, agg, ok, s).store, k) == At(s, k)
  {
    var r := Call(featureName, startDate, endDate, employees, activities, config, cal, agg, ok, s);
    ReplayUntouched(s, r.log, k);
  }

  // --------------------------------------------------------------- recipe

  /** A base name with the `_prob` suffix is never one of the two derived
      names, so the derived name enters the loader's names only once, at
      the end. */
  lemma DerivedNotBase(bases: seq<string>, featureName: string)
    requires featureName in SupportedFeatures
    ensures featureName !in MakeRecipe(bases, featureName).probNames
    ensures MakeRecipe(bases, featureName).names[|bases|] == featureName
  {
    var rc := MakeRecipe(bases, featureName);
    forall i | 0 <= i < |rc.probNames| ensures rc.probNames[i] != featureName {
      var nm := rc.probNames[i];
      assert nm[|nm| - 1] == 'b';
      assert featureName[|featureName| - 1] != 'b';
    }
  }

  /** A sequence has at least as many positions as distinct elements, and
      exactly as many when no element repeats. */
  lemma {:induction false} DistinctCount(xs: seq<string>)
    ensures |set x | x in xs| <= |xs|
    ensures (forall i, j :: 0 <= i < j < |xs| ==> xs[i] != xs[j]) ==> |set x | x in xs| == |xs|
    decreases |xs|
  {
    if |xs| > 0 {
      DistinctCount(xs[1..]);
      assert (set x | x in xs) == {xs[0]} + (set x | x in xs[1..]);
      if forall i, j :: 0 <= i < j < |xs| ==> xs[i] != xs[j] {
        assert xs[0] !in xs[1..];
      }
    }
  }

  /** Distinct names stay distinct with the same suffix appended. */
  lemma SuffixInjective(a: string, b: string, suffix: string)
    ensures a + suffix == b + suffix ==> a == b
  {
    if a + suffix == b + suffix {
      assert a == (a + suffix)[..|a|];
      assert b == (b + suffix)[..|b|];
    }
  }

  /** A subset is no larger than its superset. */
  lemma {:induction false} SubsetCount(a: set<string>, b: set<string>)
    requires a <= b
    ensures |a| <= |b|
    decreases |b|
  {
    if a != {} {
      var x :| x in a;
      SubsetCount(a - {x}, b - {x});
    }
  }

  /** The size gate counts only base features, plus a stored 0.0 of the
      derived feature. With the derived value absent or truthy, a loaded
      slice never exceeds the bound N. A day holding every one of N distinct
      base probabilities passes the gate then, but fails it when a 0.0 is
      stored as the derived value, which therefore stays forever. */
  lemma GateCounts(bases: seq<string>, featureName: string, sl: Slice)
    requires featureName in SupportedFeatures
    requires forall nm :: nm in sl ==> nm in MakeRecipe(bases, featureName).names
    ensures var e := ExtractPrev(sl, featureName);
      e.prev != Some(Fin(0.0)) ==> |e.rest| <= |bases|
    ensures var e := ExtractPrev(sl, featureName);
      (&& (forall i, j :: 0 <= i < j < |bases| ==> bases[i] != bases[j])
       && (forall i :: 0 <= i < |bases| ==> bases[i] + ProbSuffix in sl))
      ==> (ValidSize(|e.rest|, |bases|) <==> e.prev != Some(Fin(0.0)) && |bases| > 0)
  {
    var rc := MakeRecipe(bases, featureName);
    var e := ExtractPrev(sl, featureName);
    var probs := set x | x in rc.probNames;
    DerivedNotBase(bases, featureName);
    DistinctCount(rc.probNames);
    assert |e.rest| == |e.rest.Keys|;
    if e.prev != Some(Fin(0.0)) {
      assert e.rest.Keys <= probs by {
        forall nm | nm in e.rest ensures nm in probs {
          assert nm in rc.probNames + [featureName];
        }
      }
      SubsetCount(e.rest.Keys, probs);
    }
    if && (forall i, j :: 0 <= i < j < |bases| ==> bases[i] != bases[j])
       && (forall i :: 0 <= i < |bases| ==> bases[i] + ProbSuffix in sl)
    {
      forall i, j | 0 <= i < j < |rc.probNames| ensures rc.probNames[i] != rc.probNames[j] {
        SuffixInjective(bases[i], bases[j], ProbSuffix);
      }
      assert probs <= e.rest.Keys;
      SubsetCount(probs, e.rest.Keys);
      if e.prev == Some(Fin(0.0)) {
        assert probs + {featureName} <= e.rest.Keys;
        SubsetCount(probs + {featureName}, e.rest.Keys);
      }
    }
  }

  // ------------------------------------------------------ failure isolation

  /** The batch of a kind. */
  function BatchOf(b: Batches, k: Kind): seq<Action> {
    match k
    case Insert => b.ins
    case Update => b.upd
    case Delete => b.del
  }

  /** `t` is the attempt of the batch of its kind: this employee, that
      batch's rows, and committed exactly when the oracle lets it and, for
      the insert batch, none of its keys is already stored. */
  predicate AttemptOf(t: Txn, s: Store, idx: nat, b: Batches, ok: (nat, Kind) -> bool) {
    && t.emp == idx && t.rows == BatchOf(b, t.kind)
    && t.committed == (ok(idx, t.kind) && !Clashes(s, t.kind, t.rows))
  }

  /** Each non-empty batch is attempted exactly once with its own rows,
      whatever became of the other batches; an empty batch is not attempted. */
  lemma BatchesAttempted(s: Store, idx: nat, b: Batches, ok: (nat, Kind) -> bool)
    ensures var log := CommitBatches(s, idx, b, ok).log;
      && (forall t: Txn :: t in log ==> AttemptOf(t, s, idx, b, ok))
      && (forall k :: |BatchOf(b, k)| > 0 <==> exists t: Txn :: t in log && t.kind == k)
  {
    AttemptLogEntries(s, idx, b, ok);
  }

  lemma AttemptLogEntries(s: Store, idx: nat, b: Batches, ok: (nat, Kind) -> bool)
    ensures var log := AttemptLog(s, idx, b, ok);
      && (forall t: Txn :: t in log ==> AttemptOf(t, s, idx, b, ok))
      && (forall k :: |BatchOf(b, k)| > 0 <==> exists t: Txn :: t in log && t.kind == k)
  {
    var l1 := Attempt(idx, Insert, b.ins, ok(idx, Insert) && !Clashes(s, Insert, b.ins));
    var l2 := Attempt(idx, Update, b.upd, ok(idx, Update));
    var l3 := Attempt(idx, Delete, b.del, ok(idx, Delete));
    var log := l1 + l2 + l3;
    assert forall t: Txn :: t in log <==> t in l1 || t in l2 || t in l3;
    assert forall t: Txn :: t in l1 ==> AttemptOf(t, s, idx, b, ok);
    assert forall t: Txn :: t in l2 ==> AttemptOf(t, s, idx, b, ok) by {
      assert !Clashes(s, Update, b.upd);
    }
    assert forall t: Txn :: t in l3 ==> AttemptOf(t, s, idx, b, ok) by {
      assert !Clashes(s, Delete, b.del);
    }
    forall k ensures |BatchOf(b, k)| > 0 <==> exists t: Txn :: t in log && t.kind == k {
      if |BatchOf(b, k)| > 0 {
        match k
        case Insert => assert l1[0] in log;
        case Update => assert l2[0] in log;
        case Delete => assert l3[0] in log;
      }
    }
  }

  /** The aggregate never raises under this policy. */
  ghost predicate NeverRaises(st: Setting) {
    forall x: Slice :: st.agg(st.policy, x).Ok?
  }

  /** The loader has an entry for every listed employee, and every loaded
      day of theirs has an activity id in the caller's lookup table. */
  ghost predicate Covered(env: Env, emps: seq<string>) {
    && (forall e :: e in emps ==> e in env.cal)
    && (forall e, d :: e in emps && d in DaysOf(env.cal, e) && d.date <= env.end ==>
          LookupActivity(env.st.activities, e, d.date).Some?)
  }

  /** With an aggregate that does not raise and a lookup table that covers
      every loaded day, one employee's step completes whatever the store. */
  lemma EmployeeStepCompletes(env: Env, emp: string, idx: nat, s: Store)
    requires NeverRaises(env.st) && emp in env.cal
    requires forall d :: d in DaysOf(env.cal, emp) && d.date <= env.end ==>
      LookupActivity(env.st.activities, emp, d.date).Some?
    ensures EmployeeStep(env, emp, idx, s).Ok?
  {
    var series := LoadSeries(s, env.cal, env.names, emp, env.end);
    CollectCompletes(env.st, emp, series);
  }

  /** Failure isolation: commit failures never stop the loop. With an
      aggregate that does not raise and a covering lookup table, the loop
      runs over every employee whatever the commit oracle says, and the
      table holds exactly the batches that committed. */
  lemma {:induction false} RunCompletes(env: Env, emps: seq<string>, start: nat, s: Store)
    requires NeverRaises(env.st) && Covered(env, emps)
    ensures RunEmployees(env, emps, start, s).Done?
    decreases |emps|
  {
    if |emps| > 0 {
      assert emps[0] in emps;
      EmployeeStepCompletes(env, emps[0], start, s);
      var o := EmployeeStep(env, emps[0], start, s).value;
      assert forall e :: e in emps[1..] ==> e in emps;
      RunCompletes(env, emps[1..], start + 1, o.store);
    }
  }

  /** A call for a configured derived feature returns normally when the
      aggregate does not raise and the lookup table covers every loaded day,
      whatever the commit oracle says. */
  lemma CallCompletes(featureName: string, startDate: int, endDate: int, employees: seq<string>,
                      activities: Activities, config: Config, cal: Calendar, agg: Aggregate,
                      ok: (nat, Kind) -> bool, s: Store)
    requires featureName in config && config[featureName].Some?
    requires var env := CallEnv(featureName, config[featureName].value, endDate, activities, cal, agg, ok);
      NeverRaises(env.st) && Covered(env, employees)
    ensures Call(featureName, startDate, endDate, employees, activities, config, cal, agg, ok, s).Returned?
  {
    RunCompletes(CallEnv(featureName, config[featureName].value, endDate, activities, cal, agg, ok), employees, 0, s);
  }

  // ------------------------------------------------------------- one date

  /** The slice a date would show after its own action has been committed. */
  function SliceAfter(sl: Slice, x: Option<Action>, name: string): Slice {
    match x
    case None => sl
    case Some(a) =>
      match Effect(a, At(sl, name))
      case None => sl - {name}
      case Some(v) => sl[name := v]
  }

  /** The aggregate never yields exactly 0.0 under this policy. */
  ghost predicate NoZeroAgg(st: Setting) {
    forall x: Slice :: st.agg(st.policy, x) != Ok(Fin(0.0))
  }

  /** A date whose stored derived value equals the aggregate of the rest of
      its slice produces no action. */
  lemma QuietAtValue(st: Setting, emp: string, date: int, sl: Slice, v: real)
    requires ExtractPrev(sl, st.derived).prev == Some(Fin(v))
    requires st.agg(st.policy, ExtractPrev(sl, st.derived).rest) == Ok(Fin(v))
    ensures ProcessDate(st, emp, date, sl) == Ok(None)
  {
  }

  /** A date with no stored derived value whose aggregate is NaN produces no
      action, provided its activity lookup succeeds. */
  lemma QuietAtNaN(st: Setting, emp: string, date: int, sl: Slice)
    requires ExtractPrev(sl, st.derived).prev == None
    requires st.agg(st.policy, ExtractPrev(sl, st.derived).rest) == Ok(NaN)
    requires LookupActivity(st.activities, emp, date).Some?
    ensures ProcessDate(st, emp, date, sl) == Ok(None)
  {
  }

  /** After its insert, a date is quiet: the inserted value is truthy, so it
      leaves the slice again and the rest is the slice that was aggregated. */
  lemma InsertSettles(st: Setting, emp: string, date: int, sl: Slice, a: Action)
    requires ProcessDate(st, emp, date, sl) == Ok(Some(a)) && a.kind == Insert
    requires NoZeroAgg(st)
    ensures ProcessDate(st, emp, date, sl[st.derived := a.value]) == Ok(None)
  {
    var sl2 := sl[st.derived := a.value];
    assert st.derived !in sl;
    assert a.value.Fin? && a.value != Fin(0.0);
    assert ExtractPrev(sl2, st.derived).rest == sl;
    QuietAtValue(st, emp, date, sl2, a.value.r);
  }

  /** After its update, a date is quiet: the old and the new value are both
      truthy, so the rest of the slice is the same both times. */
  lemma UpdateSettles(st: Setting, emp: string, date: int, sl: Slice, a: Action)
    requires ProcessDate(st, emp, date, sl) == Ok(Some(a)) && a.kind == Update
    requires NoZeroAgg(st)
    requires st.derived in sl ==> sl[st.derived] != Fin(0.0)
    ensures ProcessDate(st, emp, date, sl[st.derived := a.value]) == Ok(None)
  {
    var sl2 := sl[st.derived := a.value];
    assert a.value.Fin? && a.value != Fin(0.0);
    assert ExtractPrev(sl, st.derived).rest == sl - {st.derived};
    assert ExtractPrev(sl2, st.derived).rest == sl - {st.derived};
    QuietAtValue(st, emp, date, sl2, a.value.r);
  }

  /** After its delete, a date is quiet: with the old truthy value gone the
      rest of the slice is unchanged, its aggregate is still NaN, and no
      value is stored to compare it with. */
  lemma DeleteSettles(st: Setting, emp: string, date: int, sl: Slice, a: Action)
    requires ProcessDate(st, emp, date, sl) == Ok(Some(a)) && a.kind == Delete
    requires st.derived in sl ==> sl[st.derived] != Fin(0.0)
    ensures ProcessDate(st, emp, date, sl - {st.derived}) == Ok(None)
  {
    var sl2 := sl - {st.derived};
    assert ExtractPrev(sl, st.derived).rest == sl2;
    assert ExtractPrev(sl2, st.derived).rest == sl2;
    QuietAtNaN(st, emp, date, sl2);
  }

  /** One date is idempotent: once its action has been committed, the same
      date with the same base values produces no action. A stored 0.0 is
      excluded because it stays in the slice and is aggregated with it. */
  lemma DateIdempotent(st: Setting, emp: string, date: int, sl: Slice)
    requires ProcessDate(st, emp, date, sl).Ok?
    requires NoZeroAgg(st)
    requires st.derived in sl ==> sl[st.derived] != Fin(0.0)
    ensures ProcessDate(st, emp, date, SliceAfter(sl, ProcessDate(st, emp, date, sl).value, st.derived)) == Ok(None)
  {
    var x := ProcessDate(st, emp, date, sl).value;
    if x.Some? {
      var a := x.value;
      match a.kind
      case Insert => InsertSettles(st, emp, date, sl, a);
      case Update => UpdateSettles(st, emp, date, sl, a);
      case Delete => DeleteSettles(st, emp, date, sl, a);
    }
  }

  // ---------------------------------------------------------- idempotence

  /** The caller's lookup table agrees with the calendar the loader reads. */
  ghost predicate Consistent(env: Env) {
    forall e, d :: e in env.cal && d in env.cal[e] && d.date <= env.end ==>
      LookupActivity(env.st.activities, e, d.date) == Some(d.act)
  }

  ghost predicate AllOk(ok: (nat, Kind) -> bool) {
    forall i, k :: ok(i, k)
  }

  /** No stored derived value is exactly 0.0. */
  ghost predicate NoZeroStored(s: Store, derived: string) {
    forall k :: k in s && k.1 == derived ==> s[k] != Fin(0.0)
  }

  /** The assumptions under which a second run is quiet. */
  ghost predicate Sync(env: Env) {
    && NoZeroAgg(env.st) && Consistent(env) && AllOk(env.ok)
    && env.st.derived in env.names
  }

  /** The loader has an entry for the employee, and every loaded day of
      theirs produces no action on this table. */
  ghost predicate Settled(env: Env, emp: string, s: Store) {
    && emp in env.cal
    && forall d :: d in DaysOf(env.cal, emp) && d.date <= env.end ==>
         ProcessDate(env.st, emp, d.date, SliceOf(s, d.act, env.names)) == Ok(None)
  }

  /** A settled employee's step attempts nothing and leaves the table alone. */
  lemma SettledQuiet(env: Env, emp: string, idx: nat, s: Store)
    requires Settled(env, emp, s)
    ensures EmployeeStep(env, emp, idx, s) == Ok(Outcome(s, []))
  {
    var series := LoadSeries(s, env.cal, env.names, emp, env.end);
    CollectQuiet(env.st, emp, series);
  }

  /** A loaded slice is determined by the table's rows for its activity. */
  lemma SliceOfEq(s: Store, act: int, names: seq<string>, sl: Slice)
    requires forall nm :: nm in sl ==> nm in names
    requires forall nm :: nm in names ==> At(s, (act, nm)) == At(sl, nm)
    ensures SliceOf(s, act, names) == sl
  {
    var sl2 := SliceOf(s, act, names);
    forall nm ensures (nm in sl2 <==> nm in sl) && (nm in sl ==> sl2[nm] == sl[nm]) {
      if nm in names {
        assert At(s, (act, nm)) == At(sl, nm);
      }
    }
  }

  /** Every row one employee's step collects comes from one of that
      employee's loaded days, and the row's key is that day's activity. */
  lemma RowFromDay(env: Env, emp: string, s: Store, r: Action)
    requires Consistent(env)
    requires Collect(env.st, emp, LoadSeries(s, env.cal, env.names, emp, env.end)).Ok?
    requires r in AllRows(Collect(env.st, emp, LoadSeries(s, env.cal, env.names, emp, env.end)).value)
    ensures exists d :: (d in DaysOf(env.cal, emp) && d.date <= env.end && d.act == r.act &&
      ProcessDate(env.st, emp, d.date, SliceOf(s, d.act, env.names)) == Ok(Some(r)))
  {
    var series := LoadSeries(s, env.cal, env.names, emp, env.end);
    CollectRows(env.st, emp, series);
    var x :| x in series && DateResult(env.st, emp, x) == Ok(Some(r));
    var d :| d in DaysOf(env.cal, emp) && d.date <= env.end && x == Dated(d.date, SliceOf(s, d.act, env.names));
    assert LookupActivity(env.st.activities, emp, d.date) == Some(r.act);
  }

  /** The rows one employee's step collects. */
  function StepRows(env: Env, emp: string, s: Store): seq<Action>
    requires Collect(env.st, emp, LoadSeries(s, env.cal, env.names, emp, env.end)).Ok?
  {
    AllRows(Collect(env.st, emp, LoadSeries(s, env.cal, env.names, emp, env.end)).value)
  }

  /** An insert is collected only for a date with no stored derived value,
      so with a lookup that agrees with the calendar no insert addresses a
      stored key and the unique constraint never fails the insert batch. */
  lemma InsertsFresh(env: Env, emp: string, s: Store)
    requires Consistent(env) && env.st.derived in env.names
    requires Collect(env.st, emp, LoadSeries(s, env.cal, env.names, emp, env.end)).Ok?
    ensures forall r :: r in Collect(env.st, emp, LoadSeries(s, env.cal, env.names, emp, env.end)).value.ins ==>
      KeyOf(r) !in s
  {
    var b := Collect(env.st, emp, LoadSeries(s, env.cal, env.names, emp, env.end)).value;
    forall r | r in b.ins ensures KeyOf(r) !in s {
      assert r in AllRows(b);
      RowFromDay(env, emp, s, r);
      var d :| d in DaysOf(env.cal, emp) && d.date <= env.end && d.act == r.act &&
        ProcessDate(env.st, emp, d.date, SliceOf(s, d.act, env.names)) == Ok(Some(r));
      var e := ExtractPrev(SliceOf(s, d.act, env.names), env.st.derived);
      assert Classify(e.prev, r.value) == Some(Insert);
    }
  }

  /** With every commit succeeding, the step's table is its rows applied in order. */
  lemma StepStore(env: Env, emp: string, idx: nat, s: Store)
    requires AllOk(env.ok) && Consistent(env) && env.st.derived in env.names
    requires EmployeeStep(env, emp, idx, s).Ok?
    ensures EmployeeStep(env, emp, idx, s).value.store == ApplyRows(s, StepRows(env, emp, s))
  {
    var b := Collect(env.st, emp, LoadSeries(s, env.cal, env.names, emp, env.end)).value;
    assert env.ok(idx, Insert) && env.ok(idx, Update) && env.ok(idx, Delete);
    InsertsFresh(env, emp, s);
    CommitBatchesAllOk(s, idx, b, env.ok);
    ApplyRowsConcat(s, b.ins, b.upd);
    ApplyRowsConcat(s, b.ins + b.upd, b.del);
  }

  /** Every collected row is for the derived feature. */
  lemma StepRowsNamed(env: Env, emp: string, s: Store)
    requires Collect(env.st, emp, LoadSeries(s, env.cal, env.names, emp, env.end)).Ok?
    ensures forall r :: r in StepRows(env, emp, s) ==> r.name == env.st.derived
  {
    var b := Collect(env.st, emp, LoadSeries(s, env.cal, env.names, emp, env.end)).value;
    assert Sorted(b, env.st.derived);
    assert forall r :: r in AllRows(b) ==> r in b.ins || r in b.upd || r in b.del;
  }

  /** A day's own result is the only source of rows for its activity, and
      its action, if any, is among the rows. */
  lemma DayRows(env: Env, emp: string, s: Store, d: Day)
    requires Consistent(env)
    requires Collect(env.st, emp, LoadSeries(s, env.cal, env.names, emp, env.end)).Ok?
    requires d in DaysOf(env.cal, emp) && d.date <= env.end
    ensures var R := ProcessDate(env.st, emp, d.date, SliceOf(s, d.act, env.names));
      && R.Ok?
      && (forall r :: r in StepRows(env, emp, s) && r.act == d.act ==> R == Ok(Some(r)))
      && (R.value.Some? ==> R.value.value in StepRows(env, emp, s) && R.value.value.act == d.act)
  {
    var series := LoadSeries(s, env.cal, env.names, emp, env.end);
    var sl := SliceOf(s, d.act, env.names);
    var R := ProcessDate(env.st, emp, d.date, sl);
    CollectCompletes(env.st, emp, series);
    CollectRows(env.st, emp, series);
    if |sl| > 0 {
      assert Dated(d.date, sl) in series;
      assert DateResult(env.st, emp, Dated(d.date, sl)) == R;
    }
    forall r | r in StepRows(env, emp, s) && r.act == d.act
      ensures R == Ok(Some(r))
    {
      RowFromDay(env, emp, s, r);
      var d' :| d' in DaysOf(env.cal, emp) && d'.date <= env.end && d'.act == r.act &&
        ProcessDate(env.st, emp, d'.date, SliceOf(s, d'.act, env.names)) == Ok(Some(r));
      // Days sharing an activity id load the same slice and, under a
      // consistent lookup, produce the same action.
      assert LookupActivity(env.st.activities, emp, d'.date) == Some(d.act);
      assert LookupActivity(env.st.activities, emp, d.date) == Some(d.act);
      assert SliceOf(s, d'.act, env.names) == sl;
    }
  }

  /** Rows for the derived feature in which only `x` addresses activity
      `act` turn that activity's slice into the slice after `x`. */
  lemma SliceAfterRows(s: Store, rows: seq<Action>, act: int, names: seq<string>, derived: string, x: Option<Action>)
    requires derived in names
    requires forall r :: r in rows ==> r.name == derived
    requires forall r :: r in rows && r.act == act ==> x == Some(r)
    requires x.Some? ==> x.value in rows && x.value.act == act
    ensures SliceOf(ApplyRows(s, rows), act, names) == SliceAfter(SliceOf(s, act, names), x, derived)
  {
    var s2 := ApplyRows(s, rows);
    var after := SliceAfter(SliceOf(s, act, names), x, derived);
    forall nm | nm in names
      ensures At(s2, (act, nm)) == At(after, nm)
    {
      var k := (act, nm);
      if nm != derived || x.None? {
        forall i | 0 <= i < |rows| ensures KeyOf(rows[i]) != k {
          assert rows[i] in rows;
        }
      } else {
        RowsAt(s, rows, k, x.value);
      }
    }
    SliceOfEq(s2, act, names, after);
  }

  /** After one employee's step with every commit succeeding, each of its
      days shows the slice its own action produces. */
  lemma StepDay(env: Env, emp: string, idx: nat, s: Store, d: Day)
    requires Sync(env)
    requires EmployeeStep(env, emp, idx, s).Ok?
    requires d in DaysOf(env.cal, emp) && d.date <= env.end
    ensures ProcessDate(env.st, emp, d.date, SliceOf(s, d.act, env.names)).Ok?
    ensures SliceOf(EmployeeStep(env, emp, idx, s).value.store, d.act, env.names) ==
      SliceAfter(SliceOf(s, d.act, env.names), ProcessDate(env.st, emp, d.date, SliceOf(s, d.act, env.names)).value, env.st.derived)
  {
    StepStore(env, emp, idx, s);
    StepRowsNamed(env, emp, s);
    DayRows(env, emp, s, d);
    var R := ProcessDate(env.st, emp, d.date, SliceOf(s, d.act, env.names));
    SliceAfterRows(s, StepRows(env, emp, s), d.act, env.names, env.st.derived, R.value);
  }

  /** Committed rows carry aggregate values, so none of them is 0.0. */
  lemma {:induction false} ApplyRowsNoZero(s: Store, rows: seq<Action>, derived: string)
    requires NoZeroStored(s, derived)
    requires forall r :: r in rows ==> r.value != Fin(0.0)
    ensures NoZeroStored(ApplyRows(s, rows), derived)
    decreases |rows|
  {
    if |rows| > 0 {
      assert rows[0] in rows;
      assert forall r :: r in rows[1..] ==> r in rows;
      ApplyRowsNoZero(ApplyRow(s, rows[0]), rows[1..], derived);
    }
  }

  /** One day of an employee is quiet once that employee's step has committed. */
  lemma StepSettlesDay(env: Env, emp: string, idx: nat, s: Store, d: Day)
    requires Sync(env) && NoZeroStored(s, env.st.derived)
    requires EmployeeStep(env, emp, idx, s).Ok?
    requires d in DaysOf(env.cal, emp) && d.date <= env.end
    ensures ProcessDate(env.st, emp, d.date, SliceOf(EmployeeStep(env, emp, idx, s).value.store, d.act, env.names)) == Ok(None)
  {
    StepDay(env, emp, idx, s, d);
    var sl := SliceOf(s, d.act, env.names);
    if env.st.derived in sl {
      assert (d.act, env.st.derived) in s;
    }
    DateIdempotent(env.st, emp, d.date, sl);
  }

  /** A step never stores 0.0 as the derived value. */
  lemma StepNoZero(env: Env, emp: string, idx: nat, s: Store)
    requires Sync(env) && NoZeroStored(s, env.st.derived)
    requires EmployeeStep(env, emp, idx, s).Ok?
    ensures NoZeroStored(EmployeeStep(env, emp, idx, s).value.store, env.st.derived)
  {
    StepStore(env, emp, idx, s);
    forall r | r in StepRows(env, emp, s) ensures r.value != Fin(0.0) {
      RowFromDay(env, emp, s, r);
    }
    ApplyRowsNoZero(s, StepRows(env, emp, s), env.st.derived);
  }

  /** One employee's step with every commit succeeding settles that employee. */
  lemma StepSettles(env: Env, emp: string, idx: nat, s: Store)
    requires Sync(env) && NoZeroStored(s, env.st.derived)
    requires EmployeeStep(env, emp, idx, s).Ok?
    ensures Settled(env, emp, EmployeeStep(env, emp, idx, s).value.store)
    ensures NoZeroStored(EmployeeStep(env, emp, idx, s).value.store, env.st.derived)
  {
    forall d | d in DaysOf(env.cal, emp) && d.date <= env.end
      ensures ProcessDate(env.st, emp, d.date, SliceOf(EmployeeStep(env, emp, idx, s).value.store, d.act, env.names)) == Ok(None)
    {
      StepSettlesDay(env, emp, idx, s, d);
    }
    StepNoZero(env, emp, idx, s);
  }

  /** Another employee's step leaves a settled employee settled: a row of
      theirs on one of this employee's activities would come from the same
      slice, which produces no action. */
  lemma StepKeepsSettled(env: Env, emp: string, other: string, idx: nat, s: Store)
    requires Sync(env) && Settled(env, emp, s)
    requires EmployeeStep(env, other, idx, s).Ok?
    ensures Settled(env, emp, EmployeeStep(env, other, idx, s).value.store)
  {
    if other == emp {
      SettledQuiet(env, emp, idx, s);
    } else {
      var s2 := EmployeeStep(env, other, idx, s).value.store;
      StepStore(env, other, idx, s);
      var rows := StepRows(env, other, s);
      forall d | d in DaysOf(env.cal, emp) && d.date <= env.end
        ensures SliceOf(s2, d.act, env.names) == SliceOf(s, d.act, env.names)
      {
        forall nm | nm in env.names ensures At(s2, (d.act, nm)) == At(s, (d.act, nm)) {
          forall i | 0 <= i < |rows| ensures KeyOf(rows[i]) != (d.act, nm) {
            assert rows[i] in rows;
            RowFromDay(env, other, s, rows[i]);
          }
        }
        SliceOfEq(s2, d.act, env.names, SliceOf(s, d.act, env.names));
      }
    }
  }

  /** The rest of the loop leaves a settled employee settled. */
  lemma {:induction false} RunKeepsSettled(env: Env, emp: string, emps: seq<string>, start: nat, s: Store)
    requires Sync(env) && Settled(env, emp, s)
    requires RunEmployees(env, emps, start, s).Done?
    ensures Settled(env, emp, RunEmployees(env, emps, start, s).store)
    decreases |emps|
  {
    if |emps| > 0 {
      StepKeepsSettled(env, emp, emps[0], start, s);
      RunKeepsSettled(env, emp, emps[1..], start + 1, EmployeeStep(env, emps[0], start, s).value.store);
    }
  }

  /** A loop that ran over every employee with every commit succeeding
      leaves every one of them settled. */
  lemma {:induction false} RunSettles(env: Env, emps: seq<string>, start: nat, s: Store)
    requires Sync(env) && NoZeroStored(s, env.st.derived)
    requires RunEmployees(env, emps, start, s).Done?
    ensures forall e :: e in emps ==> Settled(env, e, RunEmployees(env, emps, start, s).store)
    decreases |emps|
  {
    if |emps| > 0 {
      StepSettles(env, emps[0], start, s);
      var s1 := EmployeeStep(env, emps[0], start, s).value.store;
      RunSettles(env, emps[1..], start + 1, s1);
      RunKeepsSettled(env, emps[0], emps[1..], start + 1, s1);
      assert forall e :: e in emps ==> e == emps[0] || e in emps[1..];
    }
  }

  /** A loop over settled employees attempts nothing. */
  lemma {:induction false} SettledRunQuiet(env: Env, emps: seq<string>, start: nat, s: Store)
    requires forall e :: e in emps ==> Settled(env, e, s)
    ensures RunEmployees(env, emps, start, s) == Done(s, [])
    decreases |emps|
  {
    if |emps| > 0 {
      assert emps[0] in emps;
      SettledQuiet(env, emps[0], start, s);
      assert forall e :: e in emps[1..] ==> e in emps;
      SettledRunQuiet(env, emps[1..], start + 1, s);
    }
  }

  /** Idempotence: when a call returns normally with every commit
      succeeding, an aggregate that never yields 0.0, no stored 0.0, distinct
      activity ids and a lookup table that agrees with the calendar, a
      second call over the unchanged table attempts nothing and changes
      nothing, whatever its own start date and commit oracle. */
  lemma SecondRunIsQuiet(featureName: string, startDate: int, endDate: int, employees: seq<string>,
                         activities: Activities, config: Config, cal: Calendar, agg: Aggregate,
                         ok: (nat, Kind) -> bool, s: Store, startDate2: int, ok2: (nat, Kind) -> bool)
    requires Call(featureName, startDate, endDate, employees, activities, config, cal, agg, ok, s).Returned?
    requires featureName in config && config[featureName].Some? ==>
      Sync(CallEnv(featureName, config[featureName].value, endDate, activities, cal, agg, ok))
    requires NoZeroStored(s, featureName)
    ensures var s1 := Call(featureName, startDate, endDate, employees, activities, config, cal, agg, ok, s).store;
      Call(featureName, startDate2, endDate, employees, activities, config, cal, agg, ok2, s1) == Returned([], [], [], s1, [])
  {
    if featureName in SupportedFeatures {
      var bases := config[featureName].value;
      var env := CallEnv(featureName, bases, endDate, activities, cal, agg, ok);
      var env2 := CallEnv(featureName, bases, endDate, activities, cal, agg, ok2);
      assert featureName in env.names;
      RunSettles(env, employees, 0, s);
      var s1 := RunEmployees(env, employees, 0, s).store;
      assert forall e :: e in employees ==> Settled(env2, e, s1);
      SettledRunQuiet(env2, employees, 0, s1);
    }
  }
}
