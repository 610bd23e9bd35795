/** The per-date step of the engine: take out the previously stored derived
    value, gate on the slice size, aggregate, and classify the change. */
module Reconcile {
  import opened Values

  /** The two aggregation policies: `anomaly_likehood` takes the geometric
      mean of the slice, `anomaly_likehood_log` raises the sum of logs to
      the power 1/n. */
  datatype Policy = GeometricMean | LogSum

  /** The aggregate over a slice. Its floating-point arithmetic is not
      modelled: it is a parameter, deterministic, and may raise. */
  type Aggregate = (Policy, Slice) -> Result<Num>

  /** The caller's lookup table: employee, then date, then activity id. */
  type Activities = map<string, map<int, int>>

  /** The relative tolerance below which a recomputed value counts as
      unchanged: the exact real 10^-13, not the double nearest to it. */
  const Tolerance: real := 0.0000000000001

  /** Everything one date's step depends on besides the slice itself. */
  datatype Setting = Setting(derived: string, policy: Policy, bound: nat, agg: Aggregate, activities: Activities)

  /** `activities[emp][date]`, or `None` where the lookup raises `KeyError`. */
  function LookupActivity(activities: Activities, emp: string, date: int): Option<int>
  {
    if emp in activities && date in activities[emp] then Some(activities[emp][date]) else None
  }

  /** The previous derived value and what remains of the slice. */
  datatype Extracted = Extracted(prev: Option<Num>, rest: Slice)

  /** `prev = slice.get(name)`, then `del slice[name]` only when `prev` is
      truthy: a stored 0.0 stays in the slice and is counted with the base
      features, while a stored NaN is taken out. */
  function ExtractPrev(slice: Slice, name: string): (e: Extracted)
    ensures e.prev.Some? <==> name in slice
    ensures name in slice ==> e.prev.value == slice[name]
    ensures forall k :: k in e.rest ==> k in slice && e.rest[k] == slice[k]
    ensures forall k :: k in slice && k != name ==> k in e.rest
    ensures name in e.rest <==> e.prev == Some(Fin(0.0))
    ensures |e.rest| == if Truthy(e.prev) then |slice| - 1 else |slice|
  {
    var prev := At(slice, name);
    if Truthy(prev) then
      assert (slice - {name}).Keys == slice.Keys - {name};
      Extracted(prev, slice - {name})
    else
      Extracted(prev, slice)
  }

  /** The validity gate: at least one and at most `bound` values remain. */
  predicate ValidSize(n: nat, bound: nat) {
    0 < n <= bound
  }

  /** The relative-change test `abs((cur - prev) / cur) > 1e-13`, evaluated
      over the reals, reached only with a non-NaN `cur`. The float64 cases
      it keeps: a NaN `prev` makes the comparison false; a non-zero
      difference over a zero `cur` is an infinity, which exceeds the
      tolerance, while 0/0 is NaN, which does not. */
  predicate RelChangeExceeds(prev: Num, cur: real) {
    match prev
    case NaN => false
    case Fin(p) =>
      if cur == 0.0 then p != 0.0
      else Abs((cur - p) / cur) > Tolerance
  }

  /** Over the reals, dividing by `|cur|` and multiplying the tolerance by
      it agree. */
  lemma RelChangeScaled(p: real, cur: real)
    ensures cur != 0.0 ==> (Abs((cur - p) / cur) > Tolerance <==> Abs(cur - p) > Tolerance * Abs(cur))
  {
    if cur != 0.0 {
      var q := (cur - p) / cur;
      var c := Abs(cur);
      assert cur - p == q * cur;
      assert Abs(cur - p) == Abs(q) * c by {
        if q < 0.0 && cur < 0.0 { assert q * cur == (-q) * (-cur); }
        else if q < 0.0 { assert -(q * cur) == (-q) * cur; }
        else if cur < 0.0 { assert -(q * cur) == q * (-cur); }
      }
      assert c > 0.0;
      if Abs(q) > Tolerance {
        assert (Abs(q) - Tolerance) * c > 0.0;
        assert Abs(cur - p) > Tolerance * c;
      } else {
        assert (Tolerance - Abs(q)) * c >= 0.0;
        assert Abs(cur - p) <= Tolerance * c;
      }
    }
  }

  /** The classification of a (prev, cur) pair into at most one action. */
  function Classify(prev: Option<Num>, cur: Num): (k: Option<Kind>)
    ensures k == Some(Insert) <==> prev.None? && cur.Fin?
    ensures k == Some(Delete) <==> prev.Some? && cur.NaN?
    ensures k == Some(Update) <==>
      && prev.Some? && prev.value.Fin? && cur.Fin?
      && cur.r != prev.value.r
      && (cur.r == 0.0 || Abs(cur.r - prev.value.r) > Tolerance * Abs(cur.r))
    ensures !Differs(prev, cur) ==> k == None
  {
    RelChangeScaled(if prev.Some? && prev.value.Fin? then prev.value.r else 0.0, if cur.Fin? then cur.r else 0.0);
    if !Differs(prev, cur) then None
    else if prev.None? then
      // the NaN test is nested under `prev is None`: no action, not a delete
      if cur.NaN? then None else Some(Insert)
    else if cur.NaN? then Some(Delete)
    else if RelChangeExceeds(prev.value, cur.r) then Some(Update)
    else None
  }

  /** One iteration of the date loop. The activity lookup is evaluated
      whenever `prev != cur`, before the classification, so a missing entry
      raises even when the date would produce no action. */
  function ProcessDate(st: Setting, emp: string, date: int, slice: Slice): (r: Result<Option<Action>>)
    ensures var e := ExtractPrev(slice, st.derived);
      !ValidSize(|e.rest|, st.bound) ==> r == Ok(None)
    ensures r.Ok? && r.value.Some? ==>
      var e := ExtractPrev(slice, st.derived);
      var a := r.value.value;
      && ValidSize(|e.rest|, st.bound)
      && st.agg(st.policy, e.rest) == Ok(a.value)
      && Classify(e.prev, a.value) == Some(a.kind)
      && a.name == st.derived
      && LookupActivity(st.activities, emp, date) == Some(a.act)
    ensures r.Ok? && r.value.None? ==>
      var e := ExtractPrev(slice, st.derived);
      || !ValidSize(|e.rest|, st.bound)
      || (st.agg(st.policy, e.rest).Ok? && Classify(e.prev, st.agg(st.policy, e.rest).value) == None)
    ensures r.Raise? ==>
      var e := ExtractPrev(slice, st.derived);
      && ValidSize(|e.rest|, st.bound)
      && (st.agg(st.policy, e.rest) == Raise(r.exc)
          || (r.exc == KeyError && LookupActivity(st.activities, emp, date).None?))
    ensures var e := ExtractPrev(slice, st.derived);
      (ValidSize(|e.rest|, st.bound) && st.agg(st.policy, e.rest).Ok? &&
       LookupActivity(st.activities, emp, date).Some?) ==> r.Ok?
  {
    var e := ExtractPrev(slice, st.derived);
    if !ValidSize(|e.rest|, st.bound) then Ok(None)
    else
      match st.agg(st.policy, e.rest)
      case Raise(x) => Raise(x)
      case Ok(cur) =>
        if !Differs(e.prev, cur) then Ok(None)
        else
          match LookupActivity(st.activities, emp, date)
          case None => Raise(KeyError)
          case Some(act) =>
            match Classify(e.prev, cur)
            case None => Ok(None)
            case Some(k) => Ok(Some(Action(k, act, st.derived, cur)))
  }
}
