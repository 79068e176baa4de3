/** Vocabulary shared by every module: optional values, map lookup and time. */
module Common {

  datatype Option<+T> = None | Some(value: T)

  /** The value stored under `k`, if there is one. */
  function Find<K, V>(m: map<K, V>, k: K): Option<V> {
    if k in m then Some(m[k]) else None
  }

  /** `m` with the entry of `k` replaced by `v`; an absent `v` leaves `m` as it was. */
  function Store<K, V>(m: map<K, V>, k: K, v: Option<V>): map<K, V> {
    if v.Some? then m[k := v.value] else m
  }

  // Instants and durations count nanoseconds. Instant 0 stands for Go's zero
  // time, which no clock ever shows.
  type Time = int
  type Duration = int

  const ZERO_TIME: Time := 0
  const SECOND: Duration := 1_000_000_000
  const MINUTE: Duration := 60 * SECOND

  /** Instants that never go back. */
  ghost predicate Nondecreasing(times: seq<Time>) {
    forall i, j | 0 <= i <= j < |times| :: times[i] <= times[j]
  }

  /** A multiple fits exactly when its factor is at most the quotient. */
  lemma TimesAtMost(q: int, p: int, d: int)
    requires p > 0
    ensures q * p <= d <==> q <= d / p
  {
    var m := d / p;
    assert m * p <= d < (m + 1) * p;
    if q <= m {
      assert q * p <= m * p;
    } else {
      assert q * p >= (m + 1) * p;
    }
  }

  lemma {:induction false} SubsetSize<T>(a: set<T>, b: set<T>)
    requires a <= b
    ensures |a| <= |b|
  {
    if a != {} {
      var x :| x in a;
      SubsetSize(a - {x}, b - {x});
    }
  }

  lemma ProperSubsetSize<T>(a: set<T>, b: set<T>)
    requires a < b
    ensures |a| < |b|
  {
    var x :| x in b && x !in a;
    SubsetSize(a, b - {x});
  }
}
