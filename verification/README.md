# Adaptive anomaly likelihood: aggregate and reconcile

A Dafny model of the derived-feature engine in `ba/adaptive_anomaly.py`. The
model covers `AnomalyFeature.__call__`, the batch helpers `_insert_features`,
`_update_features` and `_delete_features`, and `supported_features`.

For each employee, the engine loads a series of dated slices. A slice maps
feature names to stored values: the `_prob` base features plus the derived
feature itself. For each date, the engine:

1. takes out the previously stored derived value;
2. checks that between one and N values remain, where N is the number of
   configured base features;
3. aggregates them into a new value;
4. classifies the (previous, new) pair as an insert, an update, a delete or
   nothing.

Each employee's actions go into three fresh lists. The lists are committed in
the order insert, update, delete. A failed commit is rolled back and the loop
goes on.

Layout:

- `values.dfy` (`Values`): feature values are NaN or a finite real. It also
  models Python truthiness of the stored value, and `!=` between it and a
  computed value.
- `store.dfy` (`FeatureStore`): the feature table, keyed by (activity id,
  feature name), and the three batch helpers. A `Txn` log records every
  attempted commit, and `Replay` rebuilds the table from it. It also holds
  the series loader, which reads the table through each employee's calendar
  of (date, activity id) days.
- `reconcile.dfy` (`Reconcile`): one date's step, covering extraction, the
  gate, aggregation, the activity lookup and classification.
- `engine.dfy` (`Engine`): the date loop, the per-employee commits, the
  employee loop and the call itself.
- `properties.dfy` (`Properties`): the frame condition, failure isolation,
  completion and idempotence.
- `findings.dfy` (`Findings`): the geometric-mean policy as written, and as
  evidently intended.

How the model stands in for what it cannot see:

- The aggregate is a parameter of type `(Policy, Slice) -> Result<Num>`. It
  is deterministic and may raise.
- Whether each commit succeeds is decided by an oracle `ok(i, kind)`, where
  `i` is the employee's position in the call's list.
- Exceptions (`KeyError`, `NameError`, `TypeError`) abort the call. Batches
  committed before the exception stay in the table.

Points where the code's behaviour is easy to misread, all of which the model
follows:

- A date that fails the size gate produces no action, so a stored
  likelihood on a date whose slice has become invalid is never deleted
  (`ba/adaptive_anomaly.py:110`).
- With no previous value and a NaN result there is no action, not a delete:
  the NaN test is nested under `prev is None` (`ba/adaptive_anomaly.py:121-123`).
- A call does not always complete. The loader's result is indexed by the
  employee (`ba/adaptive_anomaly.py:105`). The activity lookup raises
  `KeyError` for a date missing from the lookup whenever the new value
  differs from the stored one, even on a date that then produces no action (`ba/adaptive_anomaly.py:115-117`). The
  geometric-mean policy raises `NameError` (see Findings).
- A second run is quiet only under the conditions listed for
  `Properties.SecondRunIsQuiet` below.

## Model

| member | source | states |
|---|---|---|
| Reconcile.ExtractPrev | ba/adaptive_anomaly.py:107-109 | the previous value is the slice's entry for the derived name, if any; that entry leaves the slice exactly when it is truthy, so a stored 0.0 stays and is counted, and every other entry is kept unchanged |
| Reconcile.RelChangeScaled | ba/adaptive_anomaly.py:126 | over the reals, for a non-zero new value, the relative-change test `abs((new - prev) / new) > 1e-13` is equivalent to the division-free `abs(new - prev) > 1e-13 * abs(new)` |
| Reconcile.Classify | ba/adaptive_anomaly.py:115-127 | insert exactly when there is no previous value and the new one is a number; delete exactly when there is a previous value and the new one is NaN; update exactly when both are numbers, they differ, and the new one is 0 or the relative change exceeds the tolerance; nothing when the two compare equal |
| Reconcile.ProcessDate | ba/adaptive_anomaly.py:106-127 | a date failing the size gate yields nothing; an action is for the derived name and the looked-up activity, carries the aggregate, and has the kind the classification gives; a raise comes from the aggregate or from a missing activity lookup, and only after the gate passes; with a non-raising aggregate and a present lookup the date never raises |
| FeatureStore.ApplyRow | ba/adaptive_anomaly.py:41-46 | a row changes only its own (activity id, name) key: an insert sets it, an update rewrites it only if it exists, a delete removes it |
| FeatureStore.ApplyRows | ba/adaptive_anomaly.py:25-65 | a key that no row in the batch addresses keeps its value |
| FeatureStore.CommitBatch | ba/adaptive_anomaly.py:19-72 | an empty batch attempts nothing and leaves the table alone; a non-empty batch is one attempt, which commits exactly when the commit succeeds and, for inserts, no key is already stored (the table's unique constraint on name and activity id); a failed commit leaves the table as it was; the table is always the replay of the attempts |
| FeatureStore.LoadDays | ba/adaptive_anomaly.py:105 | the series holds exactly the days up to the end date on which at least one requested feature is stored, each with its slice |
| Engine.Collect | ba/adaptive_anomaly.py:106-127 | every collected row is in the list of its own kind and is for the derived feature |
| Engine.CollectCompletes | ba/adaptive_anomaly.py:106-127 | the date loop completes exactly when no loaded date raises, and a raised exception is one that some date raised |
| Engine.CollectRows | ba/adaptive_anomaly.py:116-127 | the rows collected are exactly the actions that the loaded dates produce |
| Engine.CollectQuiet | ba/adaptive_anomaly.py:99-101 | dates that all produce nothing leave the three fresh lists empty |
| Engine.AttemptLogOrdered | ba/adaptive_anomaly.py:129-131 | one employee's attempts are strictly ordered insert, update, delete; each is a non-empty batch of its own kind for the derived feature |
| Engine.CommitBatches | ba/adaptive_anomaly.py:129-131 | the three commits attempt the employee's non-empty batches in order, whatever became of the earlier ones, and the table is the replay of those attempts |
| Engine.CommitBatchesAllOk | ba/adaptive_anomaly.py:129-131 | when all three commits succeed and no insert addresses a stored key, the table receives the inserts, then the updates, then the deletes |
| Engine.EmployeeStep | ba/adaptive_anomaly.py:98-131 | an employee the loader has no entry for raises `KeyError` before anything of theirs is committed; a completed step's table is the replay of its attempts, which are ordered, well formed and tagged with this employee's position |
| Engine.RunEmployees | ba/adaptive_anomaly.py:98-131 | whether the loop finishes or stops at an exception, the table is the replay of every attempt so far; attempts are ordered by employee, then by batch, and belong to the listed employees |
| Engine.Call | ba/adaptive_anomaly.py:84-133 | an unsupported name returns three empty lists and touches nothing; a normal return always returns three empty lists; a missing config entry raises `KeyError` and a missing base-feature list raises `TypeError`, both before any write; every effect is an ordered replay of attempts on the derived feature |
| Properties.DerivedNotBase | ba/adaptive_anomaly.py:91-95 | for either supported feature, no `_prob` base name equals the derived name, so the loader's names hold the derived name exactly once, after the N base names |
| Properties.GateCounts | ba/adaptive_anomaly.py:96-110 | the gate counts only base features plus a stored 0.0: with the derived value absent or truthy, a loaded slice never exceeds N; a day holding all N distinct base probabilities passes the gate exactly when its derived value is not a stored 0.0 (and N > 0) |
| Properties.RowsAt | ba/adaptive_anomaly.py:41-46 | a key that a batch addresses only through one action ends up as that action makes it |
| Properties.ReplayUntouched | ba/adaptive_anomaly.py:25-65 | a key that no attempted row addresses keeps its value through any log |
| Properties.BaseFeaturesUntouched | ba/adaptive_anomaly.py:116-120 | after any call, every row whose name is not the derived feature, base features included, holds exactly what it held before |
| Properties.BatchesAttempted | ba/adaptive_anomaly.py:19-72 | each non-empty batch is attempted once with its own rows and an empty one not at all; an attempt commits exactly when its commit succeeds and, for the insert batch, none of its keys is already stored |
| Properties.EmployeeStepCompletes | ba/adaptive_anomaly.py:98-131 | with a non-raising aggregate, a loader entry for the employee and a lookup that covers their days, the step completes whatever the store holds |
| Properties.RunCompletes | ba/adaptive_anomaly.py:28-33 | failed commits never stop the loop: under the same conditions it runs over every employee, whatever the commit oracle says |
| Properties.CallCompletes | ba/adaptive_anomaly.py:84-133 | a call for a configured feature returns normally under those conditions, whatever the commit oracle says |
| Properties.DateIdempotent | ba/adaptive_anomaly.py:107-127 | once a date's own action is committed, the same date with the same base values produces no action, provided the aggregate never yields 0.0 and no 0.0 was stored |
| Properties.SettledQuiet | ba/adaptive_anomaly.py:22-23 | an employee whose dates all produce nothing attempts no commit and leaves the table alone |
| Properties.RowFromDay | ba/adaptive_anomaly.py:116-120 | with a lookup that agrees with the calendar, every row an employee's step collects comes from one of that employee's loaded days, keyed by that day's activity |
| Properties.InsertsFresh | ba/adaptive_anomaly.py:121-123 | an insert is collected only for a date with no stored derived value, so with a lookup that agrees with the calendar no insert addresses a stored key |
| Properties.StepStore | ba/adaptive_anomaly.py:129-131 | with every commit succeeding and a lookup that agrees with the calendar, the step's table is its collected rows applied in order |
| Properties.DayRows | ba/adaptive_anomaly.py:106-127 | with a lookup that agrees with the calendar, a day's own result is the only source of rows for its activity, and its action is among the rows |
| Properties.SliceAfterRows | ba/adaptive_anomaly.py:41-46 | derived-feature rows in which only one action addresses an activity turn that activity's slice into the slice after that action |
| Properties.StepDay | ba/adaptive_anomaly.py:106-131 | with every commit succeeding, a lookup that agrees with the calendar, an aggregate that never yields 0.0 and the derived feature among the loaded names, after a step each of the employee's days shows the slice its own action produces |
| Properties.StepSettles | ba/adaptive_anomaly.py:106-131 | under the same conditions and with no 0.0 stored beforehand, a step leaves every one of the employee's days quiet and stores no 0.0 |
| Properties.StepKeepsSettled | ba/adaptive_anomaly.py:116-120 | under the conditions of `StepDay`, another employee's step does not disturb an employee whose days are quiet |
| Properties.RunKeepsSettled | ba/adaptive_anomaly.py:98-131 | under the conditions of `StepDay`, the rest of the loop keeps a quiet employee quiet |
| Properties.RunSettles | ba/adaptive_anomaly.py:98-131 | under the conditions of `StepSettles`, a completed loop leaves every listed employee quiet |
| Properties.SettledRunQuiet | ba/adaptive_anomaly.py:98-131 | a loop over quiet employees attempts nothing and changes nothing |
| Properties.SecondRunIsQuiet | ba/adaptive_anomaly.py:84-133 | idempotence: after a normal, fully committed call, a second call over the resulting table attempts nothing and changes nothing, whatever its start date and commit oracle |
| Findings.AsWrittenStepWritesNothing | ba/adaptive_anomaly.py:112 | as written, an `anomaly_likehood` step collects nothing; for an employee the loader has an entry for, the only exception is `NameError` |
| Findings.AsWrittenRunWritesNothing | ba/adaptive_anomaly.py:112 | as written, the `anomaly_likehood` loop attempts no commit; with a loader entry for every employee, any exception it stops at is `NameError` |
| Findings.AsWrittenWritesNothing | ba/adaptive_anomaly.py:112 | as written, an `anomaly_likehood` call never changes the table; for a configured feature with a loader entry for every employee, it raises only `NameError` |
| Findings.AsWrittenExampleRaises | ba/adaptive_anomaly.py:112 | as written, a single day with one base probability and no stored likelihood raises `NameError` and writes nothing |
| Findings.CorrectedCompletes | ba/adaptive_anomaly.py:112 | with the product defined, a configured call returns normally whenever the loader has an entry for every employee and the lookup covers the loaded days |
| Findings.CorrectedExampleInserts | ba/adaptive_anomaly.py:111-123 | with the product defined, the same single day inserts its geometric mean as one committed insert batch |

## Left out

- Floating-point arithmetic of the aggregate (`np.power`, `np.log`, the
  product): the aggregate is an uninterpreted, deterministic parameter.
  Infinities are not values of the model, and a stored NULL value is not
  modelled either.
- The relative-change test of `ba/adaptive_anomaly.py:126` is evaluated on
  exact reals. The float64 rounding of its subtraction and division, and
  the binary value of `1e-13`, are not modelled, so a date at the tolerance
  boundary may be classified differently.
- The three-level lookup `activities[login][cur_date][ACTIVITY_ID]` is one
  map from employee and date to activity id. A missing entry at any level
  is the same `KeyError`.
- `self._config[FEATURES]` is the configuration map itself. A missing
  `FEATURES` section is not modelled.
- The database session: add, query, commit and rollback. Only the effect of
  a committed batch on the table is modelled, and only the commit can fail,
  through the oracle. Errors raised while staging a row, before the commit,
  are not modelled.
- Per-row effects inside one commit: the rows of a batch are applied in list
  order. The table's unique constraint on (name, activity id)
  (`ba/scoring.py:114-115`) is modelled for an insert onto an already stored
  key, which fails the insert batch. Two rows of one insert batch with the
  same key are only failed through the commit oracle. A constraint
  violation is assumed to surface as the `errors.DBError` the helpers catch,
  since `errors` is not part of this model.
- `load_empl_feature_series` is modelled by `LoadSeries`, reading the table
  through a calendar of days. An employee in the calendar, even with no
  days, stands for one the loader returns an entry for. One outside it
  stands for one the loader omits, and indexing the result with `[login]`
  raises `KeyError` for them. Which of the two the real loader does for an
  employee without data is not part of this model. Its start-date argument is always `None` at
  this call site, so `Call` ignores `startDate`. The order of dates within a
  series is the calendar's order.
- `GeneralFeature` and `_create_feature_object`: the row object is the
  `Action` value.
- Logging is left out because it has no effect on the table.
- `ba/scoring.py` is table declarations and JSON and hash helpers, and the
  `labFirst` files are HTTP handlers. None of them is part of this model.
- Properties.SecondRunIsQuiet: holds under more assumptions than "commits
  succeeded and nothing changed", namely that the aggregate never yields
  exactly 0.0, that no 0.0 is stored as the derived value, and that the
  caller's lookup agrees with the calendar. A stored 0.0 stays in the slice
  and changes the next aggregate.
- Properties.DateIdempotent: needs the same two no-0.0 assumptions, for the
  same reason.

## Findings

| source | as written | input that shows it | evidently intended | confidence | as-written member | corrected member |
|---|---|---|---|---|---|---|
| ba/adaptive_anomaly.py:112 | the geometric mean calls `multiply.reduce`, and the module never defines or imports `multiply` (numpy is imported as `np`), so the first date that passes the size gate raises `NameError` | feature `anomaly_likehood` with base list `["a"]`; employee `e` with one day (date 1, activity 7) on which `a_prob` is 0.5 and no likelihood is stored | `np.multiply.reduce`, so the date inserts the geometric mean | high (not executed) | Findings.AsWrittenWritesNothing | Findings.CorrectedCompletes |

The rest of the model takes the aggregate as a parameter. `CorrectedAggregate`
is the instance in which both policies yield a value. Every property in
`Properties` holds for it, and `Findings.CorrectedExampleInserts` shows that
it writes the row that the as-written code never reaches.
