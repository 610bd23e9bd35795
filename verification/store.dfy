/** The persisted feature table keyed by (activity id, feature name), the
    three batch helpers that write to it, and the series loader that reads it. */
module FeatureStore {
  import opened Values

  /** The table's unique key: one row per (activity id, feature name). */
  type Key = (int, string)

  type Store = map<Key, Num>

  function KeyOf(a: Action): Key {
    (a.act, a.name)
  }

  /** What one action does to the row it addresses: an insert adds the row,
      an update rewrites the value of a row that exists (and matches nothing
      otherwise), a delete removes the row. */
  function Effect(a: Action, v: Option<Num>): Option<Num> {
    match a.kind
    case Insert => Some(a.value)
    case Update => if v.Some? then Some(a.value) else None
    case Delete => None
  }

  /** Applies one row of a batch to the table. */
  function ApplyRow(s: Store, a: Action): (s': Store)
    ensures At(s', KeyOf(a)) == Effect(a, At(s, KeyOf(a)))
    ensures forall k :: k != KeyOf(a) ==> At(s', k) == At(s, k)
  {
    match a.kind
    case Insert => s[KeyOf(a) := a.value]
    case Update => if KeyOf(a) in s then s[KeyOf(a) := a.value] else s
    case Delete => s - {KeyOf(a)}
  }

  /** Applies the rows of a batch in order. */
  function ApplyRows(s: Store, rows: seq<Action>): (s': Store)
    ensures forall k :: (forall i :: 0 <= i < |rows| ==> KeyOf(rows[i]) != k) ==> At(s', k) == At(s, k)
    decreases |rows|
  {
    if |rows| == 0 then s else ApplyRows(ApplyRow(s, rows[0]), rows[1..])
  }

  /** One attempted batch commit: which employee (by position in the call's
      list), which batch, its rows, and whether the commit succeeded. */
  datatype Txn = Txn(emp: nat, kind: Kind, rows: seq<Action>, committed: bool)

  /** The table after a log of attempts: committed batches applied in order,
      rolled-back ones without effect. */
  function Replay(s: Store, log: seq<Txn>): Store
    decreases |log|
  {
    if |log| == 0 then s
    else Replay(if log[0].committed then ApplyRows(s, log[0].rows) else s, log[1..])
  }

  /** A table state together with the attempts that produced it. */
  datatype Outcome = Outcome(store: Store, log: seq<Txn>)

  /** The table's unique constraint on (name, activity id): an insert batch
      that addresses an already stored key cannot commit. */
  predicate Clashes(s: Store, kind: Kind, rows: seq<Action>) {
    kind == Insert && exists r :: r in rows && KeyOf(r) in s
  }

  /** `_insert_features`, `_update_features` and `_delete_features`: an empty
      batch returns without touching the session; otherwise the rows are
      staged and committed, and a failed commit (the oracle `ok` is false, or
      an insert violates the unique constraint) is rolled back, logged and
      swallowed. */
  function CommitBatch(s: Store, emp: nat, kind: Kind, rows: seq<Action>, ok: bool): (c: Outcome)
    ensures |rows| == 0 ==> c == Outcome(s, [])
    ensures |rows| > 0 ==> c.log == [Txn(emp, kind, rows, ok && !Clashes(s, kind, rows))]
    ensures !ok || Clashes(s, kind, rows) ==> c.store == s
    ensures c.store == Replay(s, c.log)
  {
    if |rows| == 0 then Outcome(s, [])
    else
      var committed := ok && !Clashes(s, kind, rows);
      Outcome(if committed then ApplyRows(s, rows) else s, [Txn(emp, kind, rows, committed)])
  }

  /** One calendar day of an employee and the activity id recorded for it. */
  datatype Day = Day(date: int, act: int)

  /** The activity table as the loader sees it: each employee's days. */
  type Calendar = map<string, seq<Day>>

  /** A loaded date and its slice. */
  datatype Dated = Dated(date: int, slice: Slice)

  /** The requested features stored for one activity. */
  function SliceOf(s: Store, act: int, names: seq<string>): Slice
  {
    map nm | nm in names && (act, nm) in s :: s[(act, nm)]
  }

  /** The series loader over an employee's days: every day up to and
      including `end` (there is no lower bound) on which at least one
      requested feature is stored, with that day's slice. */
  function LoadDays(s: Store, days: seq<Day>, names: seq<string>, end: int): (series: seq<Dated>)
    ensures forall x :: x in series ==>
      exists d :: d in days && d.date <= end && x == Dated(d.date, SliceOf(s, d.act, names)) && |x.slice| > 0
    ensures forall d :: d in days && d.date <= end && |SliceOf(s, d.act, names)| > 0 ==>
      Dated(d.date, SliceOf(s, d.act, names)) in series
    decreases |days|
  {
    if |days| == 0 then []
    else
      var d := days[0];
      var sl := SliceOf(s, d.act, names);
      var tail := LoadDays(s, days[1..], names, end);
      assert forall e :: e in days[1..] ==> e in days;
      if d.date <= end && |sl| > 0 then [Dated(d.date, sl)] + tail else tail
  }

  /** The days the loader considers for an employee. */
  function DaysOf(cal: Calendar, emp: string): seq<Day> {
    if emp in cal then cal[emp] else []
  }

  /** `load_empl_feature_series(names, [emp], None, end)[emp]`, once the
      employee is known to have an entry. */
  function LoadSeries(s: Store, cal: Calendar, names: seq<string>, emp: string, end: int): seq<Dated> {
    LoadDays(s, DaysOf(cal, emp), names, end)
  }
}
