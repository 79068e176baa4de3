/**
 The relay's bounded fixed-window rate limiter, and the unbounded per-key
 window it answers for.
 */
module RateLimiter {
  import opened Common

  const LIMITER_MAX_KEYS := 10000

  /** The window a key is in, and how many calls it has admitted. */
  datatype Count = Count(window: Time, n: int)

  datatype LimiterState = LimiterState(lastSweep: Time, counts: map<string, Count>)

  datatype Answer = Admitted | OverLimit | Full

  /** The counts whose window is still running. */
  function Running(counts: map<string, Count>, now: Time): map<string, Count> {
    map k | k in counts && now - counts[k].window < MINUTE :: counts[k]
  }

  /** A new key meeting a full map sweeps it, at most once a minute. */
  function Swept(s: LimiterState, key: string, now: Time): LimiterState {
    if key !in s.counts && |s.counts| >= LIMITER_MAX_KEYS && now - s.lastSweep >= MINUTE
    then LimiterState(now, Running(s.counts, now))
    else s
  }

  /** One key's fixed window, as if it were alone and never forgotten. */
  function Tally(limit: int, c: Option<Count>, now: Time): (Count, bool) {
    var c0 := if c.None? || now - c.value.window >= MINUTE then Count(now, 0) else c.value;
    if c0.n >= limit then (c0, false) else (Count(c0.window, c0.n + 1), true)
  }

  function Admit(limit: int, s: LimiterState, key: string, now: Time): (LimiterState, Answer) {
    var s1 := Swept(s, key, now);
    if key !in s.counts && |s1.counts| >= LIMITER_MAX_KEYS then (s1, Full)
    else
      var (c, ok) := Tally(limit, Find(s.counts, key), now);
      (s1.(counts := s1.counts[key := c]), if ok then Admitted else OverLimit)
  }

  const NEW_LIMITER := LimiterState(ZERO_TIME, map[])

  lemma FirstCallAdmitted(limit: int, key: string, now: Time)
    requires limit > 0
    ensures Admit(limit, NEW_LIMITER, key, now) == (LimiterState(ZERO_TIME, map[key := Count(now, 1)]), Admitted)
  {
  }

  /** Can the map take the key: it is known, there is room, or a sweep is due and finds a window that has run out. */
  predicate HasRoom(s: LimiterState, key: string, now: Time) {
    || key in s.counts
    || |s.counts| < LIMITER_MAX_KEYS
    || (now - s.lastSweep >= MINUTE && exists k | k in s.counts :: now - s.counts[k].window >= MINUTE)
  }

  /** How many calls of the key its running window has admitted. */
  function Used(s: LimiterState, key: string, now: Time): int {
    if key in s.counts && now - s.counts[key].window < MINUTE then s.counts[key].n else 0
  }

  /** Each answer is given in exactly one case. */
  lemma AnswerIff(limit: int, s: LimiterState, key: string, now: Time)
    requires |s.counts| <= LIMITER_MAX_KEYS
    ensures var a := Admit(limit, s, key, now).1;
            && (a == Full <==> !HasRoom(s, key, now))
            && (a == OverLimit <==> HasRoom(s, key, now) && Used(s, key, now) >= limit)
            && (a == Admitted <==> HasRoom(s, key, now) && Used(s, key, now) < limit)
  {
    var kept := Running(s.counts, now);
    assert kept.Keys <= s.counts.Keys;
    if k :| k in s.counts && now - s.counts[k].window >= MINUTE {
      assert k in s.counts.Keys && k !in kept.Keys;
      ProperSubsetSize(kept.Keys, s.counts.Keys);
    } else {
      assert kept == s.counts;
    }
  }

  /** One more call adds at most one key, and at most one to the use of its own key. */
  lemma OneMoreCall(limit: int, s: LimiterState, key: string, now: Time, k: string)
    requires |s.counts| < LIMITER_MAX_KEYS
    ensures var s1 := Admit(limit, s, key, now).0;
            && |s1.counts| <= |s.counts| + 1
            && Used(s1, k, now) <= Used(s, k, now) + if k == key then 1 else 0
  {
    var s1 := Admit(limit, s, key, now).0;
    assert s1.counts.Keys == s.counts.Keys + {key};
  }

  class Limiter {
    const limit: int
    var lastSweep: Time
    var counts: map<string, Count>

    constructor (perMinute: int)
      ensures limit == perMinute && State() == NEW_LIMITER
    {
      limit := perMinute;
      lastSweep, counts := ZERO_TIME, map[];
    }

    function State(): LimiterState
      reads this
    {
      LimiterState(lastSweep, counts)
    }

    /** Delete every key whose window has run out. */
    method Sweep(now: Time)
      modifies this`counts
      ensures counts == Running(old(counts), now)
    {
      var before := counts;
      var todo := counts.Keys;
      while todo != {}
        invariant todo <= before.Keys
        invariant counts == map k | k in before && (k in todo || now - before[k].window < MINUTE) :: before[k]
      {
        var k :| k in todo;
        if now - before[k].window >= MINUTE {
          counts := counts - {k};
        }
        todo := todo - {k};
      }
    }

    /** A fixed one-minute window per key; the clock stands past the first minute of the zero time. */
    method Allow(key: string, now: Time) returns (ok: bool)
      requires now - ZERO_TIME >= MINUTE
      modifies this
      ensures State() == Admit(limit, old(State()), key, now).0
      ensures ok == Admit(limit, old(State()), key, now).1.Admitted?
      ensures |old(counts)| <= LIMITER_MAX_KEYS ==> ok == (HasRoom(old(State()), key, now) && Used(old(State()), key, now) < limit)
    {
      if |counts| <= LIMITER_MAX_KEYS {
        AnswerIff(limit, State(), key, now);
      }
      var known := key in counts;
      var c := if known then counts[key] else Count(ZERO_TIME, 0);
      if !known && |counts| >= LIMITER_MAX_KEYS {
        if now - lastSweep >= MINUTE {
          lastSweep := now;
          Sweep(now);
        }
        if |counts| >= LIMITER_MAX_KEYS {
          return false;
        }
      }
      if now - c.window >= MINUTE {
        c := Count(now, 0);
      }
      if c.n >= limit {
        counts := counts[key := c];
        return false;
      }
      c := c.(n := c.n + 1);
      counts := counts[key := c];
      return true;
    }
  }

  // --- bounded memory ---------------------------------------------------------

  datatype Call = Call(key: string, now: Time)

  ghost predicate CallClock(calls: seq<Call>) {
    forall i, j | 0 <= i <= j < |calls| :: calls[i].now <= calls[j].now
  }

  function AllowAll(limit: int, s: LimiterState, calls: seq<Call>): LimiterState
    decreases |calls|
  {
    if calls == [] then s else AllowAll(limit, Admit(limit, s, calls[0].key, calls[0].now).0, calls[1..])
  }

  lemma RunningIsSmaller(counts: map<string, Count>, now: Time)
    ensures |Running(counts, now)| <= |counts|
  {
    var r := Running(counts, now);
    assert r.Keys <= counts.Keys;
    SubsetSize(r.Keys, counts.Keys);
  }

  /** No run, however many keys it cycles, grows the map beyond its bound. */
  lemma {:induction false} MapStaysBounded(limit: int, s: LimiterState, calls: seq<Call>)
    requires |s.counts| <= LIMITER_MAX_KEYS
    ensures |AllowAll(limit, s, calls).counts| <= LIMITER_MAX_KEYS
    decreases |calls|
  {
    if calls != [] {
      RunningIsSmaller(s.counts, calls[0].now);
      MapStaysBounded(limit, Admit(limit, s, calls[0].key, calls[0].now).0, calls[1..]);
    }
  }

  // --- sweeping changes no answer ------------------------------------------------

  /** The calls of `key` that were not turned away for lack of room. */
  function Served(limit: int, s: LimiterState, calls: seq<Call>, key: string): seq<Time>
    decreases |calls|
  {
    if calls == [] then []
    else
      var (s1, a) := Admit(limit, s, calls[0].key, calls[0].now);
      var rest := Served(limit, s1, calls[1..], key);
      if calls[0].key == key && a != Full then [calls[0].now] + rest else rest
  }

  /** The times at which `key` was admitted. */
  function Admissions(limit: int, s: LimiterState, calls: seq<Call>, key: string): seq<Time>
    decreases |calls|
  {
    if calls == [] then []
    else
      var (s1, a) := Admit(limit, s, calls[0].key, calls[0].now);
      var rest := Admissions(limit, s1, calls[1..], key);
      if calls[0].key == key && a == Admitted then [calls[0].now] + rest else rest
  }

  /** The admissions of one unbounded window counter. */
  function Tallied(limit: int, c: Option<Count>, times: seq<Time>): seq<Time>
    decreases |times|
  {
    if times == [] then []
    else
      var (c1, ok) := Tally(limit, c, times[0]);
      var rest := Tallied(limit, Some(c1), times[1..]);
      if ok then [times[0]] + rest else rest
  }

  /** The bounded map stands for counter `c` of `key`: equal, or forgotten after its window ran out. */
  ghost predicate StandsFor(s: LimiterState, key: string, c: Option<Count>, now: Time) {
    if key in s.counts then c == Some(s.counts[key])
    else c.None? || now - c.value.window >= MINUTE
  }

  /** One call keeps the bounded map standing for the counter, and answers a served call as it would. */
  lemma StandsForNext(limit: int, s: LimiterState, call: Call, key: string, c: Option<Count>, now: Time)
    requires StandsFor(s, key, c, now) && now <= call.now
    ensures var (s1, a) := Admit(limit, s, call.key, call.now);
            var (c1, ok) := Tally(limit, c, call.now);
            if call.key == key && a != Full
            then StandsFor(s1, key, Some(c1), call.now) && (a == Admitted <==> ok)
            else StandsFor(s1, key, c, call.now)
  {
  }

  /**
   A sweep removes only keys whose next call opens a new window anyway, so
   the bounded limiter answers every call it has room for exactly as the
   unbounded counter does.
   */
  lemma {:induction false} BoundedAnswersAsUnbounded(limit: int, s: LimiterState, calls: seq<Call>, key: string, c: Option<Count>, now: Time)
    requires CallClock(calls) && (calls != [] ==> now <= calls[0].now)
    requires StandsFor(s, key, c, now)
    ensures Admissions(limit, s, calls, key) == Tallied(limit, c, Served(limit, s, calls, key))
    decreases |calls|
  {
    if calls != [] {
      var call, rest := calls[0], calls[1..];
      StandsForNext(limit, s, call, key, c, now);
      var (s1, a) := Admit(limit, s, call.key, call.now);
      var served := Served(limit, s1, rest, key);
      if call.key == key && a != Full {
        var (c1, ok) := Tally(limit, c, call.now);
        BoundedAnswersAsUnbounded(limit, s1, rest, key, Some(c1), call.now);
        assert Served(limit, s, calls, key) == [call.now] + served;
        assert ([call.now] + served)[1..] == served;
      } else {
        BoundedAnswersAsUnbounded(limit, s1, rest, key, c, call.now);
      }
    }
  }

  // --- how much one key can get through ---------------------------------------------

  /** How many of `times` lie in [lo, hi). */
  function CountIn(times: seq<Time>, lo: Time, hi: Time): nat {
    if times == [] then 0
    else (if lo <= times[0] < hi then 1 else 0) + CountIn(times[1..], lo, hi)
  }

  lemma {:induction false} CountInSplit(times: seq<Time>, lo: Time, mid: Time, hi: Time)
    requires lo <= mid <= hi
    ensures CountIn(times, lo, hi) == CountIn(times, lo, mid) + CountIn(times, mid, hi)
  {
    if times != [] {
      CountInSplit(times[1..], lo, mid, hi);
    }
  }

  lemma {:induction false} CountInWithin(times: seq<Time>, lo: Time, hi: Time, lo': Time, hi': Time)
    requires lo' <= lo && hi <= hi'
    ensures CountIn(times, lo, hi) <= CountIn(times, lo', hi')
  {
    if times != [] {
      CountInWithin(times[1..], lo, hi, lo', hi');
    }
  }

  /** Nothing is admitted before the first call. */
  lemma {:induction false} TalliedStartsLate(limit: int, c: Option<Count>, times: seq<Time>, lo: Time, hi: Time)
    requires Nondecreasing(times) && (times != [] ==> hi <= times[0])
    ensures CountIn(Tallied(limit, c, times), lo, hi) == 0
    decreases |times|
  {
    if times != [] {
      var (c1, ok) := Tally(limit, c, times[0]);
      var rest := Tallied(limit, Some(c1), times[1..]);
      TalliedStartsLate(limit, Some(c1), times[1..], lo, hi);
      assert ([times[0]] + rest)[1..] == rest;
    }
  }

  /** A counter in its window admits what is left of the limit before the window ends. */
  lemma {:induction false} RestOfWindow(limit: int, c: Count, times: seq<Time>, lo: Time)
    requires 0 <= c.n <= limit && Nondecreasing(times) && (times != [] ==> c.window <= times[0])
    ensures CountIn(Tallied(limit, Some(c), times), lo, c.window + MINUTE) <= limit - c.n
    decreases |times|
  {
    if times != [] {
      var t := times[0];
      if t >= c.window + MINUTE {
        TalliedStartsLate(limit, Some(c), times, lo, c.window + MINUTE);
      } else {
        var (c1, ok) := Tally(limit, Some(c), t);
        var rest := Tallied(limit, Some(c1), times[1..]);
        RestOfWindow(limit, c1, times[1..], lo);
        assert ([t] + rest)[1..] == rest;
      }
    }
  }

  /** A counter that opens a window at `t` admits at most the limit before that window ends. */
  lemma {:induction false} WindowFromHere(limit: int, c: Count, times: seq<Time>, lo: Time, hi: Time)
    requires 0 <= limit && Nondecreasing(times) && times != []
    requires times[0] - c.window >= MINUTE && lo <= times[0] && hi <= times[0] + MINUTE
    ensures CountIn(Tallied(limit, Some(c), times), lo, hi) <= limit
  {
    var t := times[0];
    var (c1, ok) := Tally(limit, Some(c), t);
    var rest := Tallied(limit, Some(c1), times[1..]);
    RestOfWindow(limit, c1, times[1..], lo);
    CountInWithin(rest, lo, hi, lo, t + MINUTE);
    assert ([t] + rest)[1..] == rest;
  }

  /** In the minute after its window a counter admits at most the limit. */
  lemma {:induction false} NextMinute(limit: int, c: Count, times: seq<Time>, hi: Time)
    requires 0 <= c.n <= limit && Nondecreasing(times) && (times != [] ==> c.window <= times[0])
    requires hi <= c.window + 2 * MINUTE
    ensures CountIn(Tallied(limit, Some(c), times), c.window + MINUTE, hi) <= limit
    decreases |times|
  {
    if times != [] {
      var t := times[0];
      if t < c.window + MINUTE {
        var (c1, ok) := Tally(limit, Some(c), t);
        var rest := Tallied(limit, Some(c1), times[1..]);
        NextMinute(limit, c1, times[1..], hi);
        assert ([t] + rest)[1..] == rest;
      } else {
        WindowFromHere(limit, c, times, c.window + MINUTE, hi);
      }
    }
  }

  /**
   A key is admitted at most 2 * limit - 1 times in any minute: a full window
   begins with an admission, so no minute holds two full windows.
   */
  lemma {:induction false} TalliedPerMinute(limit: int, c: Option<Count>, times: seq<Time>, a: Time)
    requires limit > 0 && Nondecreasing(times)
    requires c.Some? ==> 1 <= c.value.n <= limit && (times != [] ==> c.value.window <= times[0])
    ensures CountIn(Tallied(limit, c, times), a, a + MINUTE) <= 2 * limit - 1
    decreases |times|
  {
    if times != [] {
      var t := times[0];
      var (c1, ok) := Tally(limit, c, t);
      var rest := Tallied(limit, Some(c1), times[1..]);
      assert ([t] + rest)[1..] == rest;
      if !(ok && a <= t < a + MINUTE) {
        TalliedPerMinute(limit, Some(c1), times[1..], a);
      } else if a + MINUTE <= c1.window + MINUTE {
        RestOfWindow(limit, c1, times[1..], a);
        CountInWithin(rest, a, a + MINUTE, a, c1.window + MINUTE);
      } else {
        RestOfWindow(limit, c1, times[1..], a);
        NextMinute(limit, c1, times[1..], a + MINUTE);
        CountInSplit(rest, a, c1.window + MINUTE, a + MINUTE);
      }
    }
  }

  lemma NondecreasingCons(t: Time, times: seq<Time>)
    requires Nondecreasing(times) && forall i | 0 <= i < |times| :: t <= times[i]
    ensures Nondecreasing([t] + times)
  {
  }

  lemma {:induction false} ServedInOrder(limit: int, s: LimiterState, calls: seq<Call>, key: string, lo: Time)
    requires CallClock(calls) && (calls != [] ==> lo <= calls[0].now)
    ensures Nondecreasing(Served(limit, s, calls, key))
    ensures forall i | 0 <= i < |Served(limit, s, calls, key)| :: lo <= Served(limit, s, calls, key)[i]
    decreases |calls|
  {
    if calls != [] {
      var now := calls[0].now;
      var (s1, a) := Admit(limit, s, calls[0].key, now);
      var rest := Served(limit, s1, calls[1..], key);
      ServedInOrder(limit, s1, calls[1..], key, now);
      if calls[0].key == key && a != Full {
        NondecreasingCons(now, rest);
      }
    }
  }

  /**
   The rate bound: from a new limiter, over any run with any keys under a
   nondecreasing clock, each key is admitted at most 2 * limit - 1 times in
   any half-open minute, and never when the limit is zero.
   */
  lemma RateBound(limit: nat, calls: seq<Call>, key: string, a: Time)
    requires CallClock(calls)
    ensures CountIn(Admissions(limit, NEW_LIMITER, calls, key), a, a + MINUTE)
            <= if limit == 0 then 0 else 2 * limit - 1
  {
    var s := NEW_LIMITER;
    var served := Served(limit, s, calls, key);
    BoundedAnswersAsUnbounded(limit, s, calls, key, None, if calls == [] then 0 else calls[0].now);
    ServedInOrder(limit, s, calls, key, if calls == [] then 0 else calls[0].now);
    if limit == 0 {
      NothingAtZero(None, served, a, a + MINUTE);
    } else {
      TalliedPerMinute(limit, None, served, a);
    }
  }

  lemma {:induction false} NothingAtZero(c: Option<Count>, times: seq<Time>, lo: Time, hi: Time)
    requires c.Some? ==> c.value.n >= 0
    ensures CountIn(Tallied(0, c, times), lo, hi) == 0
    decreases |times|
  {
    if times != [] {
      var (c1, ok) := Tally(0, c, times[0]);
      NothingAtZero(Some(c1), times[1..], lo, hi);
    }
  }

  /**
   What a call does to the other keys: nothing, unless its key is unknown, the
   map is full and the last sweep is a minute old; then exactly the keys whose
   window has run out are freed, and the sweep is remembered.
   */
  lemma {:induction false} OtherKeysAfter(limit: int, s: LimiterState, c: Call, k: string)
    requires k != c.key
    ensures var s1 := AllowAll(limit, s, [c]);
            var sweeps := c.key !in s.counts && |s.counts| >= LIMITER_MAX_KEYS && c.now - s.lastSweep >= MINUTE;
            && s1.lastSweep == (if sweeps then c.now else s.lastSweep)
            && Find(s1.counts, k) == if sweeps && k in s.counts && c.now - s.counts[k].window >= MINUTE then None else Find(s.counts, k)
  {
    assert [c][1..] == [];
    assert AllowAll(limit, s, [c]) == Admit(limit, s, c.key, c.now).0;
  }

  // --- only two reasons to refuse ------------------------------------------------------

  /** The limiter before the `i`-th call of a run from a new one. */
  function Before(limit: int, calls: seq<Call>, i: nat): LimiterState
    requires i <= |calls|
  {
    AllowAll(limit, NEW_LIMITER, calls[..i])
  }

  /** When `key` was admitted before the `i`-th call. */
  function AdmittedBefore(limit: int, calls: seq<Call>, i: nat, key: string): seq<Time>
    requires i <= |calls|
  {
    Admissions(limit, NEW_LIMITER, calls[..i], key)
  }

  /** Was the `i`-th call admitted, as the list of its key's admissions shows? */
  predicate IsAdmitted(limit: int, calls: seq<Call>, i: nat)
    requires i < |calls|
  {
    |AdmittedBefore(limit, calls, i + 1, calls[i].key)| > |AdmittedBefore(limit, calls, i, calls[i].key)|
  }

  lemma {:induction false} RunAppend(limit: int, s: LimiterState, calls: seq<Call>, c: Call, key: string)
    ensures var s1 := AllowAll(limit, s, calls);
            && AllowAll(limit, s, calls + [c]) == Admit(limit, s1, c.key, c.now).0
            && Admissions(limit, s, calls + [c], key)
                 == Admissions(limit, s, calls, key)
                  + if c.key == key && Admit(limit, s1, c.key, c.now).1 == Admitted then [c.now] else []
    decreases |calls|
  {
    if calls == [] {
      assert calls + [c] == [c] && [c][1..] == [];
    } else {
      assert (calls + [c])[1..] == calls[1..] + [c];
      RunAppend(limit, Admit(limit, s, calls[0].key, calls[0].now).0, calls[1..], c, key);
    }
  }

  lemma {:induction false} CountInAppend(a: seq<Time>, t: Time, lo: Time, hi: Time)
    ensures CountIn(a + [t], lo, hi) == CountIn(a, lo, hi) + if lo <= t < hi then 1 else 0
  {
    if a == [] {
      assert a + [t] == [t] && [t][1..] == [];
    } else {
      assert (a + [t])[1..] == a[1..] + [t];
      CountInAppend(a[1..], t, lo, hi);
    }
  }

  lemma {:induction false} CountInPast(times: seq<Time>, lo: Time, hi: Time, later: Time)
    requires hi <= later && forall i | 0 <= i < |times| :: times[i] < hi
    ensures CountIn(times, lo, later) == CountIn(times, lo, hi)
    ensures hi <= lo ==> CountIn(times, lo, later) == 0
  {
    if times != [] {
      CountInPast(times[1..], lo, hi, later);
    }
  }

  /**
   What the map says of a key at `now`: its count is the number of its
   admissions since its window opened, and none came after that window; a
   forgotten key has no admission at `now` or later.
   */
  ghost predicate Tracks(s: LimiterState, admitted: seq<Time>, key: string, now: Time) {
    if key in s.counts then
      var c := s.counts[key];
      && c.window <= now && c.n == CountIn(admitted, c.window, now + 1)
      && forall i | 0 <= i < |admitted| :: admitted[i] <= now && admitted[i] < c.window + MINUTE
    else
      forall i | 0 <= i < |admitted| :: admitted[i] < now
  }

  lemma TracksLater(s: LimiterState, admitted: seq<Time>, key: string, now: Time, later: Time)
    requires Tracks(s, admitted, key, now) && now <= later
    ensures Tracks(s, admitted, key, later)
  {
    if key in s.counts {
      CountInPast(admitted, s.counts[key].window, now + 1, later + 1);
    }
  }

  lemma TracksNext(limit: int, s: LimiterState, admitted: seq<Time>, key: string, c: Call)
    requires Tracks(s, admitted, key, c.now)
    ensures var (s1, a) := Admit(limit, s, c.key, c.now);
            Tracks(s1, admitted + if c.key == key && a == Admitted then [c.now] else [], key, c.now)
  {
    var (s1, a) := Admit(limit, s, c.key, c.now);
    if c.key == key && a != Full {
      if key !in s.counts || c.now - s.counts[key].window >= MINUTE {
        CountInPast(admitted, c.now, c.now, c.now + 1);
      }
      CountInAppend(admitted, c.now, s1.counts[key].window, c.now + 1);
    }
    assert admitted + [] == admitted;
  }

  lemma {:induction false} RunTracks(limit: int, calls: seq<Call>, i: nat, key: string, now: Time)
    requires CallClock(calls) && i <= |calls| && (i > 0 ==> calls[i - 1].now <= now)
    ensures Tracks(Before(limit, calls, i), AdmittedBefore(limit, calls, i, key), key, now)
  {
    if i > 0 {
      var c := calls[i - 1];
      assert calls[..i] == calls[..i - 1] + [c];
      RunAppend(limit, NEW_LIMITER, calls[..i - 1], c, key);
      RunTracks(limit, calls, i - 1, key, c.now);
      TracksNext(limit, Before(limit, calls, i - 1), AdmittedBefore(limit, calls, i - 1, key), key, c);
      TracksLater(Before(limit, calls, i), AdmittedBefore(limit, calls, i, key), key, c.now, now);
    }
  }

  /**
   Over any run from a new limiter, a call is admitted exactly when its key
   can be held and its running window has admitted fewer than `limit` calls.
   So a refusal has one of two reasons: `limit` admissions of this very key
   within the last minute, or a full map of other keys among which a sweep is
   not due or finds nothing to free.
   */
  lemma {:induction false} AdmittedIff(limit: nat, calls: seq<Call>, i: nat)
    requires CallClock(calls) && i < |calls|
    ensures var s, c := Before(limit, calls, i), calls[i];
            var mine := AdmittedBefore(limit, calls, i, c.key);
            && (IsAdmitted(limit, calls, i) <==> HasRoom(s, c.key, c.now) && Used(s, c.key, c.now) < limit)
            && (Used(s, c.key, c.now) != 0 ==> Used(s, c.key, c.now) == CountIn(mine, s.counts[c.key].window, c.now + 1))
            && (!IsAdmitted(limit, calls, i) ==>
                  || CountIn(mine, c.now - MINUTE + 1, c.now + 1) >= limit
                  || (c.key !in s.counts && |s.counts| == LIMITER_MAX_KEYS))
  {
    var s, c := Before(limit, calls, i), calls[i];
    var mine := AdmittedBefore(limit, calls, i, c.key);
    MapStaysBounded(limit, NEW_LIMITER, calls[..i]);
    AnswerIff(limit, s, c.key, c.now);
    assert calls[..i + 1] == calls[..i] + [c];
    RunAppend(limit, NEW_LIMITER, calls[..i], c, c.key);
    RunTracks(limit, calls, i, c.key, c.now);
    if Used(s, c.key, c.now) != 0 {
      CountInWithin(mine, s.counts[c.key].window, c.now + 1, c.now - MINUTE + 1, c.now + 1);
    }
  }

  // --- the bound is reached -----------------------------------------------------------

  function Repeat(t: Time, k: nat): seq<Time> {
    if k == 0 then [] else [t] + Repeat(t, k - 1)
  }

  lemma {:induction false} BurstAdmitted(limit: int, c: Count, t: Time, k: nat, later: seq<Time>)
    requires c.n + k <= limit && t - c.window < MINUTE
    ensures Tallied(limit, Some(c), Repeat(t, k) + later)
         == Repeat(t, k) + Tallied(limit, Some(Count(c.window, c.n + k)), later)
    decreases k
  {
    if k == 0 {
      assert Repeat(t, 0) + later == later;
    } else {
      var c1 := Count(c.window, c.n + 1);
      var rest := Repeat(t, k - 1) + later;
      BurstAdmitted(limit, c1, t, k - 1, later);
      assert Repeat(t, k) + later == [t] + rest;
      assert ([t] + rest)[1..] == rest;
      assert Tallied(limit, Some(c), [t] + rest) == [t] + Tallied(limit, Some(c1), rest);
    }
  }

  lemma {:induction false} CountInRepeat(t: Time, k: nat, rest: seq<Time>, lo: Time, hi: Time)
    requires lo <= t < hi
    ensures CountIn(Repeat(t, k) + rest, lo, hi) == k + CountIn(rest, lo, hi)
    decreases k
  {
    if k == 0 {
      assert Repeat(t, 0) + rest == rest;
    } else {
      assert (Repeat(t, k) + rest)[1..] == Repeat(t, k - 1) + rest;
      CountInRepeat(t, k - 1, rest, lo, hi);
    }
  }

  /** A burst at the end of one window and another at the start of the next, the first window opening at `t`. */
  function TwoBursts(t: Time, limit: nat): seq<Time>
    requires limit > 0
  {
    [t] + Repeat(t + MINUTE - 1, limit - 1) + Repeat(t + MINUTE, limit)
  }

  lemma {:induction false} CounterReachesBound(limit: nat, t: Time)
    requires limit > 0
    ensures CountIn(Tallied(limit, None, TwoBursts(t, limit)), t + MINUTE - 1, t + 2 * MINUTE - 1) == 2 * limit - 1
  {
    var last, next := t + MINUTE - 1, t + MINUTE;
    var early, late := Repeat(last, limit - 1), Repeat(next, limit);
    assert TwoBursts(t, limit)[1..] == early + late;
    BurstAdmitted(limit, Count(t, 1), last, limit - 1, late);
    assert late[1..] == Repeat(next, limit - 1);
    BurstAdmitted(limit, Count(next, 1), next, limit - 1, []);
    assert late[1..] + [] == late[1..];
    var admittedLate := Tallied(limit, Some(Count(t, limit)), late);
    assert admittedLate == [next] + Repeat(next, limit - 1);
    assert admittedLate == Repeat(next, limit) + [];
    assert Tallied(limit, None, TwoBursts(t, limit)) == [t] + (early + admittedLate);
    assert ([t] + (early + admittedLate))[1..] == early + admittedLate;
    CountInRepeat(last, limit - 1, admittedLate, last, last + MINUTE);
    CountInRepeat(next, limit, [], last, last + MINUTE);
  }

  /** Calls of one key at the given times. */
  function CallsAt(key: string, times: seq<Time>): seq<Call> {
    seq(|times|, i requires 0 <= i < |times| => Call(key, times[i]))
  }

  /** A limiter that knows no other key has room for every call. */
  lemma {:induction false} SingleKeyServed(limit: int, s: LimiterState, key: string, times: seq<Time>)
    requires s.counts.Keys <= {key}
    ensures Served(limit, s, CallsAt(key, times), key) == times
    decreases |times|
  {
    if times != [] {
      var calls := CallsAt(key, times);
      SubsetSize(s.counts.Keys, {key});
      assert calls[1..] == CallsAt(key, times[1..]);
      SingleKeyServed(limit, Admit(limit, s, key, times[0]).0, key, times[1..]);
    }
  }

  lemma {:induction false} RepeatIsConstant(t: Time, k: nat)
    ensures |Repeat(t, k)| == k && forall i | 0 <= i < k :: Repeat(t, k)[i] == t
  {
    if k > 0 {
      RepeatIsConstant(t, k - 1);
    }
  }

  /** The bound is sharp: one key calling a new limiter in two bursts is admitted that often in one minute. */
  lemma {:induction false} BoundIsReached(limit: nat, key: string, t: Time)
    requires limit > 0
    ensures var calls := CallsAt(key, TwoBursts(t, limit));
            && CallClock(calls)
            && CountIn(Admissions(limit, NEW_LIMITER, calls, key), t + MINUTE - 1, t + 2 * MINUTE - 1) == 2 * limit - 1
  {
    var times := TwoBursts(t, limit);
    RepeatIsConstant(t + MINUTE - 1, limit - 1);
    RepeatIsConstant(t + MINUTE, limit);
    SingleKeyServed(limit, NEW_LIMITER, key, times);
    BoundedAnswersAsUnbounded(limit, NEW_LIMITER, CallsAt(key, times), key, None, t);
    CounterReachesBound(limit, t);
  }
}
