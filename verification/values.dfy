/** Values the anomaly-likelihood engine reads, computes and writes back. */
module Values {

  /** Python's `None` or a present value. */
  datatype Option<+T> = None | Some(value: T)

  /** A double-precision feature value: NaN, or a finite number. */
  datatype Num = NaN | Fin(r: real)

  /** Exceptions that escape a call. Store commit errors are caught by the
      batch helpers and therefore have no constructor here. */
  datatype Exc = KeyError | NameError | TypeError

  /** A computation that either yields a value or raises. */
  datatype Result<+T> = Ok(value: T) | Raise(exc: Exc)

  /** One date's mapping from feature name to value, as the series loader
      hands it to the engine. */
  type Slice = map<string, Num>

  /** The three store actions a date can be classified into. */
  datatype Kind = Insert | Update | Delete

  /** A feature row to persist: the (activity id, name) key and the value. */
  datatype Action = Action(kind: Kind, act: int, name: string, value: Num)

  /** Python truthiness of the value `dict.get` returns: `None` and `0.0`
      are false, NaN (like every other non-zero float) is true. */
  predicate Truthy(v: Option<Num>) {
    match v
    case None => false
    case Some(NaN) => true
    case Some(Fin(r)) => r != 0.0
  }

  /** Python's `prev != cur` for an optional stored float against a computed
      float: `None` differs from every float and NaN differs from everything,
      itself included. */
  predicate Differs(prev: Option<Num>, cur: Num) {
    !(prev.Some? && prev.value.Fin? && cur.Fin? && prev.value.r == cur.r)
  }

  /** The value a map holds under a key, if any: Python's `dict.get`. */
  function At<K, V>(m: map<K, V>, k: K): Option<V> {
    if k in m then Some(m[k]) else None
  }

  function Abs(x: real): real {
    if x < 0.0 then -x else x
  }
}
