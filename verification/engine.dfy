/** `AnomalyFeature.__call__`: per employee, load the series, run the date
    step over every loaded date, collect three fresh batches, and commit
    them in the order insert, update, delete. */
module Engine {
  import opened Values
  import opened Reconcile
  import opened FeatureStore

  const AnomalyLikelihood: string := "anomaly_likehood"
  const AnomalyLikelihoodLog: string := "anomaly_likehood_log"
  const ProbSuffix: string := "_prob"

  /** The `supported_features` property: the two derived features. */
  const SupportedFeatures: set<string> := {AnomalyLikelihood, AnomalyLikelihoodLog}

  /** The configured base features of a derived feature, `None` where the
      configuration entry has no base-feature list. */
  type Config = map<string, Option<seq<string>>>

  /** The recipe: the base names with the probability suffix, the names the
      loader is asked for, and the bound N of the validity gate. */
  datatype Recipe = Recipe(probNames: seq<string>, names: seq<string>, bound: nat)

  function MakeRecipe(bases: seq<string>, derived: string): Recipe
  {
    var probs := seq(|bases|, i requires 0 <= i < |bases| => bases[i] + ProbSuffix);
    Recipe(probs, probs + [derived], |bases|)
  }

  /** The geometric mean for `anomaly_likehood`, the log policy otherwise. */
  function PolicyFor(featureName: string): Policy
  {
    if featureName == AnomalyLikelihood then GeometricMean else LogSum
  }

  /** Everything fixed for the duration of one call. `ok(i, kind)` decides
      whether the commit of that batch of the employee at position `i`
      succeeds. */
  datatype Env = Env(st: Setting, names: seq<string>, end: int, cal: Calendar, ok: (nat, Kind) -> bool)

  /** The three lists one employee's dates are collected into. */
  datatype Batches = Batches(ins: seq<Action>, upd: seq<Action>, del: seq<Action>)

  function AllRows(b: Batches): seq<Action> {
    b.ins + b.upd + b.del
  }

  /** One loaded date through the date step. */
  function DateResult(st: Setting, emp: string, x: Dated): Result<Option<Action>> {
    ProcessDate(st, emp, x.date, x.slice)
  }

  /** Files an action into the list of its kind. */
  function File(x: Option<Action>, b: Batches): Batches {
    match x
    case None => b
    case Some(a) =>
      match a.kind
      case Insert => Batches([a] + b.ins, b.upd, b.del)
      case Update => Batches(b.ins, [a] + b.upd, b.del)
      case Delete => Batches(b.ins, b.upd, [a] + b.del)
  }

  /** Every collected row is of its list's kind and for the derived feature. */
  predicate Sorted(b: Batches, derived: string) {
    && (forall a :: a in b.ins ==> a.kind == Insert && a.name == derived)
    && (forall a :: a in b.upd ==> a.kind == Update && a.name == derived)
    && (forall a :: a in b.del ==> a.kind == Delete && a.name == derived)
  }

  /** The date loop of one employee, in series order. The first date that
      raises ends the loop, and the lists collected so far are lost with it. */
  function Collect(st: Setting, emp: string, series: seq<Dated>): (r: Result<Batches>)
    ensures r.Ok? ==> Sorted(r.value, st.derived)
    decreases |series|
  {
    if |series| == 0 then Ok(Batches([], [], []))
    else
      match DateResult(st, emp, series[0])
      case Raise(e) => Raise(e)
      case Ok(a) =>
        match Collect(st, emp, series[1..])
        case Raise(e) => Raise(e)
        case Ok(b) => Ok(File(a, b))
  }

  /** The loop completes exactly when no date raises, and an exception it
      raises is one a date raised. */
  lemma {:induction false} CollectCompletes(st: Setting, emp: string, series: seq<Dated>)
    ensures Collect(st, emp, series).Ok? <==> forall x :: x in series ==> DateResult(st, emp, x).Ok?
    ensures Collect(st, emp, series).Raise? ==>
      exists x :: x in series && DateResult(st, emp, x) == Raise(Collect(st, emp, series).exc)
    decreases |series|
  {
    if |series| > 0 {
      CollectCompletes(st, emp, series[1..]);
      assert forall x :: x in series <==> x == series[0] || x in series[1..];
    }
  }

  /** The rows collected are exactly the actions the loaded dates produce. */
  lemma {:induction false} CollectRows(st: Setting, emp: string, series: seq<Dated>)
    requires Collect(st, emp, series).Ok?
    ensures forall a :: a in AllRows(Collect(st, emp, series).value) ==>
      exists x :: x in series && DateResult(st, emp, x) == Ok(Some(a))
    ensures forall x :: x in series && DateResult(st, emp, x).Ok? && DateResult(st, emp, x).value.Some? ==>
      DateResult(st, emp, x).value.value in AllRows(Collect(st, emp, series).value)
    decreases |series|
  {
    if |series| > 0 {
      CollectRows(st, emp, series[1..]);
      assert forall x :: x in series <==> x == series[0] || x in series[1..];
      var b := Collect(st, emp, series[1..]).value;
      var x0 := DateResult(st, emp, series[0]).value;
      assert forall a :: a in AllRows(File(x0, b)) <==> a in AllRows(b) || x0 == Some(a);
    }
  }

  /** Dates that all produce no action leave all three lists empty. */
  lemma {:induction false} CollectQuiet(st: Setting, emp: string, series: seq<Dated>)
    requires forall x :: x in series ==> DateResult(st, emp, x) == Ok(None)
    ensures Collect(st, emp, series) == Ok(Batches([], [], []))
    decreases |series|
  {
    if |series| > 0 {
      assert series[0] in series;
      assert forall x :: x in series[1..] ==> x in series;
      CollectQuiet(st, emp, series[1..]);
    }
  }

  /** The rank of a batch in the fixed commit order. */
  function Rank(k: Kind): nat {
    match k
    case Insert => 0
    case Update => 1
    case Delete => 2
  }

  /** `t` is attempted before `u`: an earlier employee, or the same employee
      and an earlier batch. */
  predicate Before(t: Txn, u: Txn) {
    t.emp < u.emp || (t.emp == u.emp && Rank(t.kind) < Rank(u.kind))
  }

  /** Attempts are strictly ordered: at most one attempt per employee and
      batch, in employee order, and in the order insert, update, delete. */
  predicate Ordered(log: seq<Txn>) {
    forall i, j :: 0 <= i < j < |log| ==> Before(log[i], log[j])
  }

  /** Every attempt is a non-empty batch of rows of its own kind for the
      derived feature. */
  predicate WellFormed(log: seq<Txn>, derived: string) {
    forall t :: t in log ==>
      && |t.rows| > 0
      && forall a :: a in t.rows ==> a.kind == t.kind && a.name == derived
  }

  /** Concatenating two ordered logs, the first entirely before the second,
      keeps them ordered and well formed. */
  lemma OrderedConcat(l1: seq<Txn>, l2: seq<Txn>, derived: string)
    requires Ordered(l1) && Ordered(l2)
    requires WellFormed(l1, derived) && WellFormed(l2, derived)
    requires forall t, u :: t in l1 && u in l2 ==> Before(t, u)
    ensures Ordered(l1 + l2) && WellFormed(l1 + l2, derived)
  {
    var l := l1 + l2;
    forall i, j | 0 <= i < j < |l|
      ensures Before(l[i], l[j])
    {
      if j < |l1| {
        assert l[i] == l1[i] && l[j] == l1[j];
      } else if i >= |l1| {
        assert l[i] == l2[i - |l1|] && l[j] == l2[j - |l1|];
      } else {
        assert l[i] in l1 && l[j] == l2[j - |l1|];
      }
    }
    assert forall t :: t in l ==> t in l1 || t in l2;
  }

  /** The attempt a batch makes: none when it is empty, one otherwise. */
  function Attempt(idx: nat, k: Kind, rows: seq<Action>, ok: bool): seq<Txn> {
    if |rows| == 0 then [] else [Txn(idx, k, rows, ok)]
  }

  /** The attempts of one employee's three batches, in the fixed order, on
      table `s`. Only the insert batch can clash with the table, and it is
      committed first, against `s` itself. */
  function AttemptLog(s: Store, idx: nat, b: Batches, ok: (nat, Kind) -> bool): seq<Txn> {
    Attempt(idx, Insert, b.ins, ok(idx, Insert) && !Clashes(s, Insert, b.ins))
      + Attempt(idx, Update, b.upd, ok(idx, Update))
      + Attempt(idx, Delete, b.del, ok(idx, Delete))
  }

  /** One employee's attempts are ordered and well formed. */
  lemma AttemptLogOrdered(s: Store, idx: nat, b: Batches, ok: (nat, Kind) -> bool, derived: string)
    requires Sorted(b, derived)
    ensures Ordered(AttemptLog(s, idx, b, ok)) && WellFormed(AttemptLog(s, idx, b, ok), derived)
    ensures forall t :: t in AttemptLog(s, idx, b, ok) ==> t.emp == idx
  {
    var l1 := Attempt(idx, Insert, b.ins, ok(idx, Insert) && !Clashes(s, Insert, b.ins));
    var l2 := Attempt(idx, Update, b.upd, ok(idx, Update));
    var l3 := Attempt(idx, Delete, b.del, ok(idx, Delete));
    OrderedConcat(l1, l2, derived);
    assert forall t: Txn :: t in l1 + l2 ==> t.emp == idx && Rank(t.kind) < 2 by {
      assert forall t: Txn :: t in l1 + l2 ==> t in l1 || t in l2;
    }
    OrderedConcat(l1 + l2, l3, derived);
    assert forall t: Txn :: t in l1 + l2 + l3 ==> t in l1 + l2 || t in l3;
  }

  /** The three batch commits of one employee, in the fixed order; each
      runs whether or not the previous one failed. */
  function CommitBatches(s: Store, idx: nat, b: Batches, ok: (nat, Kind) -> bool): (o: Outcome)
    ensures o.log == AttemptLog(s, idx, b, ok)
    ensures o.store == Replay(s, o.log)
  {
    var c1 := CommitBatch(s, idx, Insert, b.ins, ok(idx, Insert));
    var c2 := CommitBatch(c1.store, idx, Update, b.upd, ok(idx, Update));
    var c3 := CommitBatch(c2.store, idx, Delete, b.del, ok(idx, Delete));
    ReplayConcat(s, c1.log, c2.log);
    ReplayConcat(s, c1.log + c2.log, c3.log);
    Outcome(c3.store, c1.log + c2.log + c3.log)
  }

  /** When all three commits succeed and no insert addresses a stored key,
      the rows land in the table in the order insert, update, delete. */
  lemma CommitBatchesAllOk(s: Store, idx: nat, b: Batches, ok: (nat, Kind) -> bool)
    requires ok(idx, Insert) && ok(idx, Update) && ok(idx, Delete)
    requires forall r :: r in b.ins ==> KeyOf(r) !in s
    ensures CommitBatches(s, idx, b, ok).store == ApplyRows(ApplyRows(ApplyRows(s, b.ins), b.upd), b.del)
  {
    var c1 := CommitBatch(s, idx, Insert, b.ins, ok(idx, Insert));
    assert c1.store == ApplyRows(s, b.ins);
    var c2 := CommitBatch(c1.store, idx, Update, b.upd, ok(idx, Update));
    assert c2.store == ApplyRows(c1.store, b.upd);
  }

  /** One iteration of the employee loop: fresh lists, the date loop, then
      the three batch commits. The loader's result is indexed by the
      employee, which raises `KeyError` when the loader has no entry for
      them; an exception in the date loop propagates before anything of
      this employee is committed. */
  function EmployeeStep(env: Env, emp: string, idx: nat, s: Store): (r: Result<Outcome>)
    ensures emp !in env.cal ==> r == Raise(KeyError)
    ensures r.Ok? ==> r.value.store == Replay(s, r.value.log)
    ensures r.Ok? ==> Ordered(r.value.log) && WellFormed(r.value.log, env.st.derived)
    ensures r.Ok? ==> forall t :: t in r.value.log ==> t.emp == idx
  {
    if emp !in env.cal then Raise(KeyError)
    else
      match Collect(env.st, emp, LoadSeries(s, env.cal, env.names, emp, env.end))
      case Raise(x) => Raise(x)
      case Ok(b) =>
        AttemptLogOrdered(s, idx, b, env.ok, env.st.derived);
        Ok(CommitBatches(s, idx, b, env.ok))
  }

  /** Replaying two logs one after the other is replaying their concatenation. */
  lemma {:induction false} ReplayConcat(s: Store, l1: seq<Txn>, l2: seq<Txn>)
    ensures Replay(s, l1 + l2) == Replay(Replay(s, l1), l2)
    decreases |l1|
  {
    if |l1| == 0 {
      assert l1 + l2 == l2;
    } else {
      assert (l1 + l2)[0] == l1[0];
      assert (l1 + l2)[1..] == l1[1..] + l2;
      ReplayConcat(if l1[0].committed then ApplyRows(s, l1[0].rows) else s, l1[1..], l2);
    }
  }

  /** The outcome of the employee loop: it either ran over every employee
      or stopped at an exception; either way the batches committed so far
      stay in the store. */
  datatype RunResult = Done(store: Store, log: seq<Txn>) | Aborted(exc: Exc, store: Store, log: seq<Txn>)

  /** The employee loop over `emps`, the first of which sits at position `start`. */
  function RunEmployees(env: Env, emps: seq<string>, start: nat, s: Store): (r: RunResult)
    ensures r.store == Replay(s, r.log)
    ensures Ordered(r.log) && WellFormed(r.log, env.st.derived)
    ensures forall t :: t in r.log ==> start <= t.emp < start + |emps|
    decreases |emps|
  {
    if |emps| == 0 then Done(s, [])
    else
      match EmployeeStep(env, emps[0], start, s)
      case Raise(x) => Aborted(x, s, [])
      case Ok(o) =>
        var rest := RunEmployees(env, emps[1..], start + 1, o.store);
        ReplayConcat(s, o.log, rest.log);
        OrderedConcat(o.log, rest.log, env.st.derived);
        assert forall t :: t in o.log + rest.log ==> t in o.log || t in rest.log;
        match rest
        case Done(s2, l2) => Done(s2, o.log + l2)
        case Aborted(x, s2, l2) => Aborted(x, s2, o.log + l2)
  }

  /** What a call returns: `[], [], []` on every normal exit, or the
      exception it raises. The store and the log of attempted commits are
      the side effects either way. */
  datatype CallResult =
    | Returned(ins: seq<Action>, upd: seq<Action>, del: seq<Action>, store: Store, log: seq<Txn>)
    | Raised(exc: Exc, store: Store, log: seq<Txn>)

  /** The environment a call with a configured recipe runs in. */
  function CallEnv(featureName: string, bases: seq<string>, endDate: int, activities: Activities,
                   cal: Calendar, agg: Aggregate, ok: (nat, Kind) -> bool): Env
  {
    var rc := MakeRecipe(bases, featureName);
    Env(Setting(featureName, PolicyFor(featureName), rc.bound, agg, activities), rc.names, endDate, cal, ok)
  }

  /** `AnomalyFeature.__call__`. The start date is accepted and ignored: the
      loader is asked for everything up to `endDate`. */
  function Call(featureName: string, startDate: int, endDate: int, employees: seq<string>,
                activities: Activities, config: Config, cal: Calendar, agg: Aggregate,
                ok: (nat, Kind) -> bool, s: Store): (r: CallResult)
    ensures featureName !in SupportedFeatures ==> r == Returned([], [], [], s, [])
    ensures r.Returned? ==> r.ins == [] && r.upd == [] && r.del == []
    ensures r.store == Replay(s, r.log)
    ensures Ordered(r.log) && WellFormed(r.log, featureName)
    ensures forall t :: t in r.log ==> t.emp < |employees|
    ensures featureName in SupportedFeatures && featureName !in config ==> r == Raised(KeyError, s, [])
    ensures featureName in SupportedFeatures && featureName in config && config[featureName].None? ==>
      r == Raised(TypeError, s, [])
  {
    if featureName !in SupportedFeatures then Returned([], [], [], s, [])
    else if featureName !in config then Raised(KeyError, s, [])
    else
      match config[featureName]
      case None => Raised(TypeError, s, [])
      case Some(bases) =>
        match RunEmployees(CallEnv(featureName, bases, endDate, activities, cal, agg, ok), employees, 0, s)
        case Done(s2, log) => Returned([], [], [], s2, log)
        case Aborted(x, s2, log) => Raised(x, s2, log)
  }
}
