/**
 The rules that need the sample history, as the loops the daemon runs, each
 against a statement of when it fires; and what bounding the history, counter
 resets and sampling do to them.
 */
module AlertRules {
  import opened Common
  import opened History

  // --- when a rule fires ----------------------------------------------------

  /** Every sample of the last `d` is bad, and they span `d`. */
  ghost predicate BadThroughout(h: Samples, d: Duration, bad: Sample -> bool) {
    var w := Since(h, d);
    Covers(w, d) && forall i | 0 <= i < |w| :: bad(w[i])
  }

  predicate Deaf(s: Sample) { s.active && !s.reachable }

  predicate Lonely(s: Sample, minPeers: int) {
    s.reachable && (s.sync == NotEnoughPeers || s.peers < minPeers)
  }

  ghost predicate RpcFires(h: Samples, d: Duration) {
    BadThroughout(h, d, Deaf)
  }

  ghost predicate PeersFire(h: Samples, d: Duration, minPeers: int) {
    BadThroughout(h, d, s => Lonely(s, minPeers))
  }

  /** The service is up and answering, and the height never moved. */
  ghost predicate StallFires(h: Samples, d: Duration) {
    var w := Since(h, d);
    Covers(w, d) && forall i | 0 <= i < |w| :: w[i].active && w[i].reachable && w[i].height == w[0].height
  }

  ghost predicate DownFires(h: Samples) {
    var w := LastN(h, 2);
    |w| == 2 && !w[0].active && !w[1].active
  }

  // --- the rules as the daemon runs them --------------------------------------

  method ServiceDown(h: Samples) returns (fires: bool)
    ensures fires <==> DownFires(h)
  {
    var last := LastN(h, 2);
    if |last| < 2 {
      return false;
    }
    for i := 0 to |last|
      invariant forall j | 0 <= j < i :: !last[j].active
    {
      if last[i].active {
        return false;
      }
    }
    return true;
  }

  method RpcUnreachable(h: Samples, d: Duration) returns (fires: bool)
    ensures fires <==> RpcFires(h, d)
  {
    var win := TakeSince(h, d);
    if !Covers(win, d) {
      return false;
    }
    for i := 0 to |win|
      invariant forall j | 0 <= j < i :: Deaf(win[j])
    {
      if !win[i].active || win[i].reachable {
        assert !Deaf(win[i]);
        return false;
      }
    }
    return true;
  }

  method NotEnoughPeersRule(h: Samples, d: Duration, minPeers: int) returns (fires: bool)
    ensures fires <==> PeersFire(h, d, minPeers)
  {
    ghost var bad := (s: Sample) => Lonely(s, minPeers);
    var win := TakeSince(h, d);
    if !Covers(win, d) {
      return false;
    }
    for i := 0 to |win|
      invariant forall j | 0 <= j < i :: bad(win[j])
    {
      if !win[i].reachable || (win[i].sync != NotEnoughPeers && win[i].peers >= minPeers) {
        assert !bad(win[i]);
        return false;
      }
    }
    return true;
  }

  method MomentumsStalled(h: Samples, d: Duration) returns (fires: bool)
    ensures fires <==> StallFires(h, d)
  {
    var win := TakeSince(h, d);
    if !Covers(win, d) {
      return false;
    }
    var first := win[0].height;
    for i := 0 to |win|
      invariant forall j | 0 <= j < i :: win[j].active && win[j].reachable && win[j].height == first
    {
      if !win[i].active || !win[i].reachable || win[i].height != first {
        return false;
      }
    }
    return true;
  }

  // --- the pillar rule ----------------------------------------------------------

  /** Subtraction of unsigned 64-bit counters: it wraps below zero. */
  function Minus64(a: uint64, b: uint64): uint64 {
    if a >= b then a - b else a - b + TWO_64
  }

  /** Where the last decrease of Expected ends: 0 when it never decreases. */
  ghost predicate IsLastReset(win: Samples, start: nat) {
    && start < |win|
    && (start > 0 ==> win[start].pillar.expected < win[start - 1].pillar.expected)
    && (forall i | start < i < |win| :: win[i - 1].pillar.expected <= win[i].pillar.expected)
  }

  ghost predicate Usable(s: Sample) {
    s.reachable && s.pillar.configured && s.pillar.found
  }

  /** The window and its part after the last counter reset both cover `d`, and that part is usable throughout. */
  ghost predicate PillarReady(win: Samples, start: nat, d: Duration)
    requires start < |win|
  {
    && Covers(win, d) && Covers(win[start..], d)
    && forall i | 0 <= i < |win[start..]| :: Usable(win[start..][i])
  }

  /** Keep the samples from the last decrease of Expected, an epoch rollover. */
  method LastReset(win: Samples) returns (start: nat)
    requires win != []
    ensures IsLastReset(win, start)
  {
    start := 0;
    for i := 1 to |win|
      invariant start < i
      invariant start > 0 ==> win[start].pillar.expected < win[start - 1].pillar.expected
      invariant forall j | start < j < i :: win[j - 1].pillar.expected <= win[j].pillar.expected
    {
      if win[i].pillar.expected < win[i - 1].pillar.expected {
        start := i;
      }
    }
  }

  method AllUsable(win: Samples) returns (ok: bool)
    ensures ok <==> forall i | 0 <= i < |win| :: Usable(win[i])
  {
    for i := 0 to |win|
      invariant forall j | 0 <= j < i :: Usable(win[j])
    {
      if !win[i].reachable || !win[i].pillar.configured || !win[i].pillar.found {
        assert !Usable(win[i]);
        return false;
      }
    }
    return true;
  }

  method PillarMissed(h: Samples, d: Duration, minMissed: uint64) returns (fires: bool, start: nat)
    ensures Since(h, d) != [] ==> IsLastReset(Since(h, d), start)
    ensures fires <==> Since(h, d) != [] && PillarFires(Since(h, d), start, d, minMissed)
  {
    fires, start := false, 0;
    var win := TakeSince(h, d);
    if win == [] {
      return;
    }
    start := LastReset(win);
    var rest := win[start..];
    if !Covers(win, d) || !Covers(rest, d) {
      return;
    }
    var usable := AllUsable(rest);
    if !usable {
      return;
    }
    var first, last := rest[0].pillar, rest[|rest| - 1].pillar;
    var expected := Minus64(last.expected, first.expected);
    var produced := Minus64(last.produced, first.produced);
    fires := expected > produced && expected - produced >= minMissed;
  }

  /** When the rule fires, in its own wrapping arithmetic. */
  ghost predicate PillarFires(win: Samples, start: nat, d: Duration, minMissed: uint64)
    requires start < |win|
  {
    var first, last := win[start].pillar, win[|win| - 1].pillar;
    var expected := Minus64(last.expected, first.expected);
    var produced := Minus64(last.produced, first.produced);
    && PillarReady(win, start, d)
    && expected > produced
    && expected - produced >= minMissed
  }

  /** What the rule is for, in true integers: Produced did not go back and fell short by the threshold. */
  ghost predicate TrulyMissed(win: Samples, start: nat, minMissed: uint64)
    requires start < |win|
  {
    var first, last := win[start].pillar, win[|win| - 1].pillar;
    var shortfall := (last.expected - first.expected) - (last.produced - first.produced);
    last.produced >= first.produced && shortfall > 0 && shortfall >= minMissed
  }

  /** After the cut Expected only grows, so its subtraction never wraps. */
  lemma {:induction false} ExpectedNeverWraps(win: Samples, start: nat, i: nat)
    requires IsLastReset(win, start) && start <= i < |win|
    ensures win[start].pillar.expected <= win[i].pillar.expected
    ensures Minus64(win[i].pillar.expected, win[start].pillar.expected)
         == win[i].pillar.expected - win[start].pillar.expected
  {
    if i > start {
      ExpectedNeverWraps(win, start, i - 1);
    }
  }

  /**
   The rule is exact except for one family: a Produced counter that went back
   by so much less than a full turn that the wrapped difference still falls
   below the growth of Expected.
   */
  lemma PillarExactness(win: Samples, start: nat, d: Duration, minMissed: uint64)
    requires IsLastReset(win, start) && PillarReady(win, start, d)
    ensures var first, last := win[start].pillar, win[|win| - 1].pillar;
            var wrapped := TWO_64 - (first.produced - last.produced);
            var grown := last.expected - first.expected;
            (PillarFires(win, start, d, minMissed) <==> TrulyMissed(win, start, minMissed))
            <==> !(last.produced < first.produced && grown > wrapped && grown - wrapped >= minMissed)
  {
    ExpectedNeverWraps(win, start, |win| - 1);
  }

  /** For counters below 2^63 that family is empty: the rule fires exactly when it should. */
  lemma PillarExact(win: Samples, start: nat, d: Duration, minMissed: uint64)
    requires IsLastReset(win, start)
    requires forall i | 0 <= i < |win| :: win[i].pillar.expected < TWO_64 / 2 && win[i].pillar.produced < TWO_64 / 2
    ensures PillarFires(win, start, d, minMissed)
       <==> PillarReady(win, start, d) && TrulyMissed(win, start, minMissed)
  {
    ExpectedNeverWraps(win, start, |win| - 1);
  }

  /** One member of the family: a false alarm the wraparound alone raises. */
  lemma PillarFalseAlarm() returns (win: Samples, d: Duration)
    ensures IsLastReset(win, 0) && PillarFires(win, 0, d, 1) && !TrulyMissed(win, 0, 1)
  {
    var base := Sample(0, true, true, Done, 8, 0, Pillar(true, true, 0, TWO_64 - 1));
    win := [base, base.(taken := 1, pillar := Pillar(true, true, 2, 0))];
    d := 2;
    assert Minus64(0, TWO_64 - 1) == 1;
  }

  // --- bounded history ------------------------------------------------------------

  /**
   On the trimmed history the daemon keeps, every window rule answers as it
   would on every sample ever taken, for every window a loaded configuration
   can hold.
   */
  lemma {:induction false} RulesUnaffectedByTrimming(run: seq<Reading>, k: nat, value: int, default: int, minPeers: int, start: nat, minMissed: uint64)
    requires OneClock(run) && k <= |run| && 0 <= default <= MAX_WINDOW_MINUTES
    ensures var d := ClampMinutes(value, default) * MINUTE;
            var kept, all := Kept(run, k), Whole(run, k);
            && (RpcFires(kept, d) <==> RpcFires(all, d))
            && (PeersFire(kept, d, minPeers) <==> PeersFire(all, d, minPeers))
            && (StallFires(kept, d) <==> StallFires(all, d))
            && (start < |Since(all, d)| ==>
                  && start < |Since(kept, d)|
                  && (PillarFires(Since(kept, d), start, d, minMissed) <==> PillarFires(Since(all, d), start, d, minMissed)))
  {
    WindowUnaffected(run, k, ClampMinutes(value, default) * MINUTE);
  }

  /**
   The two-sample rule answers as on the whole run exactly when the last step
   was within the history bound or the older sample would not have mattered.
   */
  lemma {:induction false} DownRuleUnaffected(run: seq<Reading>, k: nat)
    requires OneClock(run) && 0 < k <= |run|
    ensures (DownFires(Kept(run, k)) <==> DownFires(Whole(run, k)))
       <==> (k < 2 || run[k - 2].sample.taken >= run[k - 1].now - HISTORY_WINDOW
             || run[k - 1].sample.active || run[k - 2].sample.active)
  {
    LastTwoUnaffected(run, k);
    var all := Whole(run, k);
    if k >= 2 {
      assert all[k - 2] == run[k - 2].sample && all[k - 1] == run[k - 1].sample;
      DownByLastTwo(Kept(run, k), all, run[k - 2].sample.taken >= run[k - 1].now - HISTORY_WINDOW);
    }
  }

  lemma DownByLastTwo(kept: Samples, all: Samples, inBound: bool)
    requires |all| >= 2 && (LastN(kept, 2) == LastN(all, 2) <==> inBound) && (!inBound ==> |kept| == 1)
    ensures (DownFires(kept) <==> DownFires(all)) <==> inBound || all[|all| - 1].active || all[|all| - 2].active
  {
    assert LastN(all, 2) == [all[|all| - 2], all[|all| - 1]];
  }

  /** A step longer than the history bound between two samples of a service that is down. */
  lemma {:induction false} SlowStepHides(run: seq<Reading>)
    requires OneClock(run) && |run| == 2 && !run[0].sample.active && !run[1].sample.active
    requires run[0].sample.taken < run[1].now - HISTORY_WINDOW
    ensures DownFires(Whole(run, 2)) && !DownFires(Kept(run, 2)) && |Kept(run, 2)| == 1
  {
    DownRuleUnaffected(run, 2);
    LastTwoUnaffected(run, 2);
    assert LastN(Whole(run, 2), 2) == [run[0].sample, run[1].sample];
  }

  /** Two steps that take one sample each, `gap` apart. */
  function TwoSteps(s: Sample, t: Time, gap: Duration): seq<Reading> {
    [Reading(t, s.(taken := t)), Reading(t + gap, s.(taken := t + gap))]
  }

  /** So it is with two steps 31 minutes apart that find the service down. */
  lemma {:induction false} LongIntervalHidesAnOutage(s: Sample, t: Time)
    requires !s.active
    ensures var run := TwoSteps(s, t, 31 * MINUTE);
            OneClock(run) && DownFires(Whole(run, 2)) && !DownFires(Kept(run, 2)) && |Kept(run, 2)| == 1
  {
    SlowStepHides(TwoSteps(s, t, 31 * MINUTE));
  }

  // --- detection latency --------------------------------------------------------------

  /** Samples exactly `p` apart. */
  ghost predicate Periodic(h: Samples, t0: Time, p: Duration) {
    forall i | 0 <= i < |h| :: h[i].taken == t0 + i * p
  }

  /** The first sample at which a condition bad from sample `j` on is reported. */
  function FirstReport(j: nat, p: Duration, d: Duration): nat
    requires 0 < p <= d
  {
    if j > 0 then j + d / p else if d <= 2 * p then 1 else (d - 1) / p
  }

  /** Under periodic sampling the window of sample `k` starts `d / p` samples back. */
  lemma PeriodicWindow(h: Samples, t0: Time, p: Duration, d: Duration, k: nat)
    requires 0 < p <= d && Periodic(h, t0, p) && k < |h|
    ensures StaleCount(h[..k + 1], h[k].taken - d) == if k <= d / p then 0 else k - d / p
  {
    var n := if k <= d / p then 0 else k - d / p;
    forall i | 0 <= i <= k ensures h[i].taken < h[k].taken - d <==> i < n {
      TimesAtMost(k - i, p, d);
      assert (k - i) * p == k * p - i * p;
    }
    var g := h[..k + 1];
    assert forall i | 0 <= i < n :: g[i] == h[i];
    StaleCountUnique(g, h[k].taken - d, n);
  }

  /** A periodic window of samples `n` to `k` spans one period per sample. */
  lemma PeriodicSpan(h: Samples, t0: Time, p: Duration, d: Duration, n: nat, k: nat)
    requires p > 0 && Periodic(h, t0, p) && n <= k < |h|
    ensures Covers(h[n..k + 1], d) <==> n < k && (k - n + 1) * p >= d
  {
    if n < k {
      var w := h[n..k + 1];
      assert w[0] == h[n] && w[1] == h[n + 1] && w[|w| - 1] == h[k];
      assert (k - n + 1) * p == (k * p - n * p) + ((n + 1) * p - n * p);
    }
  }

  lemma PeriodicCovers(h: Samples, t0: Time, p: Duration, d: Duration, k: nat)
    requires 0 < p <= d && Periodic(h, t0, p) && k < |h|
    ensures Covers(Since(h[..k + 1], d), d) <==> k >= FirstReport(0, p, d)
  {
    PeriodicWindow(h, t0, p, d, k);
    var n := if k <= d / p then 0 else k - d / p;
    SinceOfPrefix(h, d, k, n);
    PeriodicSpan(h, t0, p, d, n, k);
    SpanSuffices(k, n, p, d);
  }

  lemma SinceOfPrefix(h: Samples, d: Duration, k: nat, n: nat)
    requires k < |h| && n <= k && n == StaleCount(h[..k + 1], h[k].taken - d)
    ensures Since(h[..k + 1], d) == h[n..k + 1]
  {
    var g := h[..k + 1];
    assert g[|g| - 1] == h[k] && g[n..] == h[n..k + 1];
  }

  lemma SpanSuffices(k: nat, n: nat, p: Duration, d: Duration)
    requires 0 < p <= d && n == if k <= d / p then 0 else k - d / p
    ensures (n < k && (k - n + 1) * p >= d) <==> k >= FirstReport(0, p, d)
  {
    TimesAtMost(k - n + 1, p, d - 1);
    TimesAtMost(1, p, d);
    FirstReportShape(p, d);
  }

  lemma FirstReportShape(p: Duration, d: Duration)
    requires 0 < p <= d
    ensures FirstReport(0, p, d) == if (d - 1) / p == 0 then 1 else (d - 1) / p
    ensures FirstReport(0, p, d) <= d / p
    ensures (d - 1) / p <= d / p
  {
    TimesAtMost(1, p, d);
    TimesAtMost(1, p, d - 1);
    TimesAtMost(2, p, d - 1);
    TimesAtMost((d - 1) / p, p, d - 1);
    TimesAtMost((d - 1) / p, p, d);
  }

  /** Where a window reaches `m` samples back and covers `d` from `first` on, it is bad throughout `m` samples after `j`. */
  lemma BadFrom(h: Samples, d: Duration, bad: Sample -> bool, j: nat, k: nat, m: nat, first: nat)
    requires j <= k < |h| && first <= m
    requires Since(h[..k + 1], d) == h[if k <= m then 0 else k - m..k + 1]
    requires Covers(Since(h[..k + 1], d), d) <==> k >= first
    requires forall i | j <= i < |h| :: bad(h[i])
    requires j > 0 ==> !bad(h[j - 1])
    ensures BadThroughout(h[..k + 1], d, bad) <==> k >= if j > 0 then j + m else first
  {
    var n := if k <= m then 0 else k - m;
    var w := Since(h[..k + 1], d);
    if n < j {
      assert w[j - 1 - n] == h[j - 1];
    }
  }

  lemma PeriodicSince(h: Samples, t0: Time, p: Duration, d: Duration, k: nat)
    requires 0 < p <= d && Periodic(h, t0, p) && k < |h|
    ensures Since(h[..k + 1], d) == h[if k <= d / p then 0 else k - d / p..k + 1]
  {
    PeriodicWindow(h, t0, p, d, k);
    SinceOfPrefix(h, d, k, StaleCount(h[..k + 1], h[k].taken - d));
  }

  /**
   Detection latency under periodic sampling. A condition that turns bad at
   sample `j` and stays bad is reported at exactly the samples from
   FirstReport on: it keeps firing, and the first report comes no later than
   `d` and no earlier than `d - p` after sample `j`.
   */
  lemma DetectionLatency(h: Samples, t0: Time, p: Duration, d: Duration, bad: Sample -> bool, j: nat, k: nat)
    requires 0 < p <= d && Periodic(h, t0, p) && j <= k < |h|
    requires forall i | j <= i < |h| :: bad(h[i])
    requires j > 0 ==> !bad(h[j - 1])
    ensures BadThroughout(h[..k + 1], d, bad) <==> k >= FirstReport(j, p, d)
    ensures d - p <= (FirstReport(j, p, d) - j) * p <= d
  {
    LatencyBound(j, p, d);
    PeriodicSince(h, t0, p, d, k);
    PeriodicCovers(h, t0, p, d, k);
    FirstReportShape(p, d);
    BadFrom(h, d, bad, j, k, d / p, FirstReport(0, p, d));
  }

  lemma LatencyBound(j: nat, p: Duration, d: Duration)
    requires 0 < p <= d
    ensures d - p <= (FirstReport(j, p, d) - j) * p <= d
  {
    var m, c := d / p, (d - 1) / p;
    assert d - p < m * p <= d;
    assert d - 1 - p < c * p <= d - 1;
  }

  /**
   Away from exact periods a window full of bad samples is reported exactly
   when the interval after its first sample is at least as long as the slack
   the cut left before that sample.
   */
  lemma BadWindowReportedIff(h: Samples, d: Duration, bad: Sample -> bool)
    requires InOrder(h) && |Since(h, d)| >= 2
    requires forall i | 0 <= i < |Since(h, d)| :: bad(Since(h, d)[i])
    ensures var cut := h[|h| - 1].taken - d;
            var f := StaleCount(h, cut);
            && f + 1 < |h|
            && (BadThroughout(h, d, bad) <==> h[f + 1].taken - h[f].taken >= h[f].taken - cut)
            && (f > 0 && h[f + 1].taken - h[f].taken >= h[f].taken - h[f - 1].taken ==> BadThroughout(h, d, bad))
  {
    var f := StaleCount(h, h[|h| - 1].taken - d);
    var w := Since(h, d);
    assert w == h[f..];
    assert w[0] == h[f] && w[1] == h[f + 1] && w[|w| - 1] == h[|h| - 1];
  }

  /**
   So a rule can stop firing while its condition lasts: with samples meant
   every 30 seconds and a one-minute window, ten milliseconds of jitter make
   the fourth sample silent after the third one fired.
   */
  lemma JitterSilencesARunningAlert() returns (h: Samples)
    ensures InOrder(h) && |h| == 4 && forall i | 0 <= i < |h| :: Deaf(h[i])
    ensures RpcFires(h[..3], MINUTE) && !RpcFires(h, MINUTE)
  {
    var s := Sample(0, true, false, Unknown, 0, 0, Pillar(false, false, 0, 0));
    var ms := SECOND / 1000;
    h := [s, s.(taken := 30 * SECOND), s.(taken := 60 * SECOND + 10 * ms), s.(taken := 90 * SECOND + 5 * ms)];
    StaleCountUnique(h[..3], h[2].taken - MINUTE, 1);
    assert Since(h[..3], MINUTE) == h[1..3];
    StaleCountUnique(h, h[3].taken - MINUTE, 2);
    assert Since(h, MINUTE) == h[2..];
  }
}
