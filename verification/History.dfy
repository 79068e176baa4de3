/**
 The sample history the rules read: trimming to a bounded window, the window
 helpers, and the proof that bounding the history loses nothing a window
 rule can see.
 */
module History {
  import opened Common

  const MAX_WINDOW_MINUTES := 30
  const HISTORY_WINDOW: Duration := MAX_WINDOW_MINUTES * MINUTE

  const TWO_64 := 0x1_0000_0000_0000_0000
  type uint64 = x: int | 0 <= x < TWO_64

  datatype SyncState = Unknown | Syncing | Done | NotEnoughPeers

  datatype Pillar = Pillar(configured: bool, found: bool, expected: uint64, produced: uint64)

  /** The readings the modelled rules use, and when they were taken. */
  datatype Sample = Sample(taken: Time, active: bool, reachable: bool, sync: SyncState, peers: int,
                           height: uint64, pillar: Pillar)

  type Samples = seq<Sample>

  /** Samples in the order their clock read. */
  ghost predicate InOrder(h: Samples) {
    forall i, j | 0 <= i <= j < |h| :: h[i].taken <= h[j].taken
  }

  /** How many samples stand before the first one not older than `cut`. */
  function StaleCount(h: Samples, cut: Time): (n: nat)
    ensures n <= |h|
    ensures forall i | 0 <= i < n :: h[i].taken < cut
    ensures n < |h| ==> h[n].taken >= cut
  {
    StaleFrom(h, cut, 0)
  }

  function StaleFrom(h: Samples, cut: Time, i: nat): (n: nat)
    requires i <= |h|
    ensures i <= n <= |h|
    ensures forall j | i <= j < n :: h[j].taken < cut
    ensures n < |h| ==> h[n].taken >= cut
    decreases |h| - i
  {
    if i == |h| || h[i].taken >= cut then i else StaleFrom(h, cut, i + 1)
  }

  function DropStale(h: Samples, cut: Time): Samples {
    h[StaleCount(h, cut)..]
  }

  /** Drops leading samples taken before `cut`, one step at a time. */
  method DropLeading(h: Samples, cut: Time) returns (r: Samples)
    ensures r == DropStale(h, cut)
  {
    var i := 0;
    while i < |h| && h[i].taken < cut
      invariant 0 <= i <= |h|
      invariant forall j | 0 <= j < i :: h[j].taken < cut
    {
      i := i + 1;
    }
    var n := StaleCount(h, cut);
    assert i == n;
    r := h[i..];
  }

  function Trimmed(h: Samples, now: Time): Samples {
    DropStale(h, now - HISTORY_WINDOW)
  }

  method TrimHistory(h: Samples, now: Time) returns (r: Samples)
    ensures r == Trimmed(h, now)
  {
    r := DropLeading(h, now - HISTORY_WINDOW);
  }

  /** The samples taken within `d` of the newest one. */
  function Since(h: Samples, d: Duration): Samples {
    if h == [] then [] else DropStale(h, h[|h| - 1].taken - d)
  }

  method TakeSince(h: Samples, d: Duration) returns (r: Samples)
    ensures r == Since(h, d)
  {
    if |h| == 0 {
      return [];
    }
    r := DropLeading(h, h[|h| - 1].taken - d);
  }

  function LastN(h: Samples, n: nat): Samples {
    if |h| <= n then h else h[|h| - n..]
  }

  /** Does the window span `d`, give or take one sampling interval? */
  predicate Covers(h: Samples, d: Duration) {
    |h| >= 2 && h[|h| - 1].taken - h[0].taken + (h[1].taken - h[0].taken) >= d
  }

  /** The bounds every duration threshold obeys once a configuration is loaded. */
  function ClampMinutes(value: int, default: int): (r: int)
    requires 0 <= default <= MAX_WINDOW_MINUTES
    ensures 0 <= r * MINUTE <= HISTORY_WINDOW
    ensures 0 <= value <= MAX_WINDOW_MINUTES ==> r == value
    ensures value < 0 ==> r == default
    ensures value > MAX_WINDOW_MINUTES ==> r == MAX_WINDOW_MINUTES
  {
    if value < 0 then default
    else if value > MAX_WINDOW_MINUTES then MAX_WINDOW_MINUTES
    else value
  }

  // --- the daemon's history against the whole run --------------------------

  /** One step of the daemon: when it began, and the sample it took. */
  datatype Reading = Reading(now: Time, sample: Sample)

  /** Every sample the first `k` steps took. */
  function Whole(run: seq<Reading>, k: nat): (h: Samples)
    requires k <= |run|
  {
    seq(k, i requires 0 <= i < k => run[i].sample)
  }

  /** What the daemon still holds after `k` steps: append and trim at every step. */
  function Kept(run: seq<Reading>, k: nat): Samples
    requires k <= |run|
  {
    if k == 0 then [] else Trimmed(Kept(run, k - 1) + [run[k - 1].sample], run[k - 1].now)
  }

  /** One nondecreasing clock: each sample is taken after its step begins and before the next one does. */
  ghost predicate OneClock(run: seq<Reading>) {
    && (forall i | 0 <= i < |run| :: run[i].now <= run[i].sample.taken)
    && (forall i, j | 0 <= i < j < |run| :: run[i].sample.taken <= run[j].now)
  }

  lemma WholeInOrder(run: seq<Reading>, k: nat)
    requires OneClock(run) && k <= |run|
    ensures InOrder(Whole(run, k))
  {
    forall i, j | 0 <= i < j < k ensures run[i].sample.taken <= run[j].sample.taken {
      assert run[i].sample.taken <= run[j].now;
    }
  }

  /** The stale count is the only split point with old samples before it and a fresh one at it. */
  lemma StaleCountUnique(h: Samples, cut: Time, n: nat)
    requires n <= |h|
    requires forall i | 0 <= i < n :: h[i].taken < cut
    requires n < |h| ==> h[n].taken >= cut
    ensures StaleCount(h, cut) == n
  {
  }

  /** A later cut drops at least as much. */
  lemma StaleMonotone(h: Samples, cut: Time, later: Time)
    requires cut <= later
    ensures StaleCount(h, cut) <= StaleCount(h, later)
  {
  }

  /** Trimming a suffix that kept every fresh sample is trimming the original. */
  lemma DropStaleOfSuffix(h: Samples, n: nat, cut: Time)
    requires n <= StaleCount(h, cut)
    ensures DropStale(h[n..], cut) == DropStale(h, cut)
  {
    var m := StaleCount(h, cut);
    assert forall i | 0 <= i < m - n :: h[n..][i] == h[n + i];
    StaleCountUnique(h[n..], cut, m - n);
  }

  /** Trimming a history that was already trimmed at an earlier cut is one trim of the original. */
  lemma DropStaleTwice(h: Samples, x: Sample, cut: Time, later: Time)
    requires cut <= later
    ensures DropStale(DropStale(h, cut) + [x], later) == DropStale(h + [x], later)
  {
    var n, all := StaleCount(h, cut), h + [x];
    assert all[n..] == DropStale(h, cut) + [x];
    assert n <= StaleCount(all, later) by {
      assert forall i | 0 <= i < |h| :: all[i] == h[i];
    }
    DropStaleOfSuffix(all, n, later);
  }

  lemma TrimAgain(h: Samples, x: Sample, now: Time, later: Time)
    requires now <= later
    ensures Trimmed(Trimmed(h, now) + [x], later) == Trimmed(h + [x], later)
  {
    DropStaleTwice(h, x, now - HISTORY_WINDOW, later - HISTORY_WINDOW);
  }

  /** Trimming at every step equals trimming the whole run once, at the last step. */
  lemma {:induction false} KeptIsOneTrim(run: seq<Reading>, k: nat)
    requires OneClock(run) && 0 < k <= |run|
    ensures Kept(run, k) == Trimmed(Whole(run, k), run[k - 1].now)
  {
    assert Whole(run, k) == Whole(run, k - 1) + [run[k - 1].sample];
    if k > 1 {
      KeptIsOneTrim(run, k - 1);
      assert run[k - 2].now <= run[k - 2].sample.taken <= run[k - 1].now;
      TrimAgain(Whole(run, k - 1), run[k - 1].sample, run[k - 2].now, run[k - 1].now);
    } else {
      assert Kept(run, 0) == [] == Whole(run, 0);
    }
  }

  /**
   A window no longer than the history bound reads the same samples from the
   bounded history as from every sample ever taken.
   */
  lemma {:induction false} WindowUnaffected(run: seq<Reading>, k: nat, d: Duration)
    requires OneClock(run) && k <= |run| && d <= HISTORY_WINDOW
    ensures Since(Kept(run, k), d) == Since(Whole(run, k), d)
  {
    if k > 0 {
      KeptIsOneTrim(run, k);
      var all := Whole(run, k);
      assert all[k - 1] == run[k - 1].sample;
      WindowOfTrimmed(all, run[k - 1].now, d);
    }
  }

  /** One trim keeps every window that fits in the bound and ends no earlier than the trim. */
  lemma WindowOfTrimmed(all: Samples, now: Time, d: Duration)
    requires all != [] && now <= all[|all| - 1].taken && d <= HISTORY_WINDOW
    ensures Since(Trimmed(all, now), d) == Since(all, d)
  {
    var cut := now - HISTORY_WINDOW;
    StaleMonotone(all, cut, all[|all| - 1].taken - d);
    assert StaleCount(all, cut) < |all|;
    SinceOfSuffix(all, StaleCount(all, cut), d);
  }

  lemma SinceOfSuffix(all: Samples, n: nat, d: Duration)
    requires n < |all| && n <= StaleCount(all, all[|all| - 1].taken - d)
    ensures Since(all[n..], d) == Since(all, d)
  {
    DropStaleOfSuffix(all, n, all[|all| - 1].taken - d);
    assert all[n..][|all| - n - 1] == all[|all| - 1];
  }

  /**
   A rule over the newest two samples sees both exactly when the step between
   them still lies in the retained window. A sampling interval above the
   history bound leaves it with a single sample for ever.
   */
  lemma {:induction false} LastTwoUnaffected(run: seq<Reading>, k: nat)
    requires OneClock(run) && 0 < k <= |run|
    ensures LastN(Kept(run, k), 1) == LastN(Whole(run, k), 1)
    ensures LastN(Kept(run, k), 2) == LastN(Whole(run, k), 2)
       <==> (k >= 2 ==> run[k - 2].sample.taken >= run[k - 1].now - HISTORY_WINDOW)
    ensures k >= 2 && run[k - 2].sample.taken < run[k - 1].now - HISTORY_WINDOW ==> |Kept(run, k)| == 1
  {
    var all, cut := Whole(run, k), run[k - 1].now - HISTORY_WINDOW;
    WholeInOrder(run, k);
    KeptIsOneTrim(run, k);
    assert all[k - 1].taken >= cut;
    LastTwoOfSuffix(all, StaleCount(all, cut), cut);
  }

  lemma LastTwoOfSuffix(all: Samples, n: nat, cut: Time)
    requires InOrder(all) && n < |all| && n == StaleCount(all, cut)
    ensures LastN(all[n..], 1) == LastN(all, 1)
    ensures LastN(all[n..], 2) == LastN(all, 2) <==> (|all| >= 2 ==> all[|all| - 2].taken >= cut)
    ensures |all| >= 2 && all[|all| - 2].taken < cut ==> |all[n..]| == 1
  {
    if |all| >= 2 {
      if all[|all| - 2].taken >= cut {
        assert n <= |all| - 2;
      } else {
        assert n == |all| - 1;
        assert |LastN(all[n..], 2)| == 1 && |LastN(all, 2)| == 2;
      }
    }
  }
}
