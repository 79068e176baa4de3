/**
 One alert followed through the daemon's run: each step is one turn of it.
 What that means for reminders, with the runs on which a promised message
 comes late or never.
 */
module Episodes {
  import opened Common
  import opened AlertProto
  import opened Delivery
  import opened AlertDaemon
  import opened Protocol
  import H = History

  // --- a daemon's run, seen by one alert ---------------------------------------

  /** The `k`-th rule is the only one of its name. */
  ghost predicate OnlyAt(rules: seq<AlertInfo>, k: nat) {
    k < |rules| && forall i | 0 <= i < |rules| && i != k :: rules[i].name != rules[k].name
  }

  ghost predicate NeverUnknown(r: Round) {
    forall name :: r.net(name) != UnknownNode
  }

  /** No reply unpairs the daemon. */
  ghost predicate StaysPaired(cycles: seq<Cycle>) {
    forall i | 0 <= i < |cycles| :: cycles[i].heartbeat != Unpaired && NeverUnknown(cycles[i].r)
  }

  lemma {:induction false} EvaluateLeaves(s: System, rules: seq<AlertInfo>, r: Round, name: string)
    requires forall i | 0 <= i < |rules| :: rules[i].name != name
    ensures At(Evaluate(s, rules, r), name) == At(s, name)
    decreases |rules|
  {
    if rules != [] {
      assert At(RuleStep(s, rules[0], r), name) == At(s, name);
      EvaluateLeaves(RuleStep(s, rules[0], r), rules[1..], r, name);
    }
  }

  /** A round is one turn of each enabled rule; nothing else in it touches that alert. */
  lemma {:induction false} RoundIsTurn(s: System, rules: seq<AlertInfo>, r: Round, k: nat) returns (p: Passage)
    requires OnlyAt(rules, k) && rules[k].name in r.enabled
    ensures var name := rules[k].name;
            At(Evaluate(s, rules, r), name) == Turn(At(s, name), r.judge(name), rules[k].severity, r.now, p).link
    ensures p == Refused || p == r.net(rules[k].name)
    ensures !s.unpaired && NeverUnknown(r) ==> p == r.net(rules[k].name) && !Evaluate(s, rules, r).unpaired
    decreases |rules|
  {
    var name, s1 := rules[k].name, RuleStep(s, rules[0], r);
    if k == 0 {
      p := if s.unpaired then Refused else r.net(name);
      EvaluateLeaves(s1, rules[1..], r, name);
      StaysKnown(s, rules, r);
    } else {
      assert OnlyAt(rules[1..], k - 1);
      assert rules[0].name != name && At(s1, name) == At(s, name);
      p := RoundIsTurn(s1, rules[1..], r, k - 1);
      StaysKnown(s, rules[..1], r);
    }
  }

  lemma {:induction false} StaysKnown(s: System, rules: seq<AlertInfo>, r: Round)
    requires rules != []
    ensures !s.unpaired && NeverUnknown(r) ==> !RuleStep(s, rules[0], r).unpaired && !Evaluate(s, rules, r).unpaired
    decreases |rules|
  {
    if |rules| > 1 {
      StaysKnown(RuleStep(s, rules[0], r), rules[1..], r);
    } else {
      assert rules[1..] == [];
    }
  }

  lemma {:induction false} BaselinesLeave(alerts: map<string, AlertState>, rules: seq<AlertInfo>, r: Round, name: string)
    requires forall i | 0 <= i < |rules| :: rules[i].name != name
    ensures Find(Baselines(alerts, rules, r), name) == Find(alerts, name)
    decreases |rules|
  {
    if rules != [] {
      var first := rules[0].name;
      BaselinesLeave(if first in r.enabled then alerts[first := Baseline(r.judge(first), r.now)] else alerts, rules[1..], r, name);
    }
  }

  lemma {:induction false} BaselineTaken(alerts: map<string, AlertState>, rules: seq<AlertInfo>, r: Round, k: nat)
    requires OnlyAt(rules, k) && rules[k].name in r.enabled
    ensures Find(Baselines(alerts, rules, r), rules[k].name) == Some(Baseline(r.judge(rules[k].name), r.now))
    decreases |rules|
  {
    var first := rules[0].name;
    var alerts1 := if first in r.enabled then alerts[first := Baseline(r.judge(first), r.now)] else alerts;
    if k == 0 {
      BaselinesLeave(alerts1, rules[1..], r, first);
    } else {
      assert OnlyAt(rules[1..], k - 1);
      BaselineTaken(alerts1, rules[1..], r, k - 1);
    }
  }

  /** The first step records every enabled rule as it is: acknowledged, never sent, with its detail. */
  lemma {:induction false} FirstStepRecords(s: System, r: Round, announced: Passage, k: nat)
    requires OnlyAt(RULES, k) && RULES[k].name in r.enabled
    ensures var name := RULES[k].name;
            At(Next(s, RULES, Restarted(r, announced)), name)
              == Link(Some(AlertState(r.judge(name).firing, true, r.now, ZERO_TIME, r.judge(name).detail)), Find(s.sent, name))
  {
    BaselineTaken(map[], RULES, r, k);
  }

  /** A disabled rule is forgotten, by a round as by the first step, and nothing is reported of it. */
  lemma {:induction false} DisabledForgotten(s: System, rules: seq<AlertInfo>, r: Round, k: nat)
    requires OnlyAt(rules, k) && rules[k].name !in r.enabled
    ensures At(Evaluate(s, rules, r), rules[k].name) == Link(None, Find(s.sent, rules[k].name))
    ensures Find(Baselines(s.alerts, rules, r), rules[k].name) == Find(s.alerts, rules[k].name)
    decreases |rules|
  {
    var name, first := rules[k].name, rules[0].name;
    var s1 := RuleStep(s, rules[0], r);
    var alerts1 := if first in r.enabled then s.alerts[first := Baseline(r.judge(first), r.now)] else s.alerts;
    if k == 0 {
      EvaluateLeaves(s1, rules[1..], r, name);
      BaselinesLeave(s.alerts, rules[1..], r, name);
    } else {
      assert OnlyAt(rules[1..], k - 1);
      DisabledForgotten(s1, rules[1..], r, k - 1);
      DisabledForgotten(s.(alerts := alerts1), rules[1..], r, k - 1);
    }
  }

  /** The `i`-th tick is what cycle `c` makes of the alert: its own request, or none when the daemon is unpaired. */
  ghost predicate IsTick(t: Tick, c: Cycle, name: string) {
    t.now == c.r.now && t.v == c.r.judge(name) && (t.p == Refused || t.p == c.r.net(name))
  }

  /** Any steps of the daemon are, for one enabled rule, one turn each. */
  lemma {:induction false} StepsAreTicks(s: System, rules: seq<AlertInfo>, k: nat, cycles: seq<Cycle>) returns (ticks: seq<Tick>)
    requires OnlyAt(rules, k) && forall i | 0 <= i < |cycles| :: rules[k].name in cycles[i].r.enabled
    ensures |ticks| == |cycles| && forall i | 0 <= i < |ticks| :: IsTick(ticks[i], cycles[i], rules[k].name)
    ensures At(Steps(s, true, rules, cycles), rules[k].name) == Ticked(At(s, rules[k].name), rules[k].severity, ticks)
    ensures !s.unpaired && StaysPaired(cycles) ==> forall i | 0 <= i < |ticks| :: ticks[i].p == cycles[i].r.net(rules[k].name)
    decreases |cycles|
  {
    if cycles == [] {
      ticks := [];
    } else {
      var c, name := cycles[0], rules[k].name;
      var p := RoundIsTurn(s, rules, c.r, k);
      var s1 := Stepped(s, true, rules, c.r, c.announced, c.heartbeat);
      assert At(s1, name) == At(Evaluate(s, rules, c.r), name);
      var rest := StepsAreTicks(s1, rules, k, cycles[1..]);
      var t := Tick(c.r.now, c.r.judge(name), p);
      ticks := [t] + rest;
      assert ticks[1..] == rest;
      forall i | 0 <= i < |ticks| ensures IsTick(ticks[i], cycles[i], name) {
        if i > 0 {
          assert ticks[i] == rest[i - 1] && cycles[i] == cycles[1..][i - 1];
        }
      }
    }
  }

  /**
   The run of a daemon from its start is, for one enabled rule, a baseline and
   one turn per later step; so whatever holds of turns holds of such runs.
   */
  lemma DaemonIsTicks(sent: map<string, SentRec>, k: nat, cycles: seq<Cycle>) returns (ticks: seq<Tick>)
    requires cycles != [] && OnlyAt(RULES, k) && forall i | 0 <= i < |cycles| :: RULES[k].name in cycles[i].r.enabled
    ensures |ticks| == |cycles| - 1 && forall i | 0 <= i < |ticks| :: IsTick(ticks[i], cycles[i + 1], RULES[k].name)
    ensures var name, first := RULES[k].name, cycles[0].r;
            At(Run(System(map[], false, sent), RULES, EventsOf(false, cycles)), name)
              == Ticked(Link(Some(Baseline(first.judge(name), first.now)), Find(sent, name)), RULES[k].severity, ticks)
    ensures cycles[0].announced != UnknownNode && StaysPaired(cycles)
            ==> forall i | 0 <= i < |ticks| :: ticks[i].p == cycles[i + 1].r.net(RULES[k].name)
  {
    var start, c := System(map[], false, sent), cycles[0];
    StepsAreRun(start, false, RULES, cycles);
    BaselineTaken(map[], RULES, c.r, k);
    ticks := StepsAreTicks(Stepped(start, false, RULES, c.r, c.announced, c.heartbeat), RULES, k, cycles[1..]);
  }

  // --- how long the chat can wait for a reminder -------------------------------

  /** The relay's times at which the alert's messages reach the chat. */
  function Posts(l: Link, severity: Severity, ticks: seq<Tick>): seq<Time>
    decreases |ticks|
  {
    if ticks == [] then []
    else
      var t, k := ticks[0], Turn(l, ticks[0].v, severity, ticks[0].now, ticks[0].p);
      var rest := Posts(k.link, severity, ticks[1..]);
      if k.asked && t.p.Handled? && Deliver(l.record, Post(Reported(t.v), t.p.relayNow, t.p.muted, t.p.sendOk)).posted
      then [t.p.relayNow] + rest else rest
  }

  /** Every two neighbours are less than `gap` apart. */
  ghost predicate GapsBelow(times: seq<Time>, gap: Duration) {
    forall i | 0 <= i < |times| - 1 :: times[i + 1] - times[i] < gap
  }

  /** Unmuted, through in both directions, and the relay reads its clock `lo` to `lo + jitter` after the daemon. */
  ghost predicate Through(t: Tick, lo: Duration, jitter: Duration) {
    GoesThrough(t.p) && !t.p.muted && lo <= t.p.relayNow - t.now <= lo + jitter
  }

  /** Evaluations at most `period` apart, after one at `last`. */
  ghost predicate Sampled(last: Time, ticks: seq<Tick>, period: Duration)
  {
    && (ticks != [] ==> last <= ticks[0].now <= last + period)
    && forall i | 0 < i < |ticks| :: ticks[i - 1].now <= ticks[i].now <= ticks[i - 1].now + period
  }

  ghost predicate AllThrough(ticks: seq<Tick>, lo: Duration, jitter: Duration) {
    forall i | 0 <= i < |ticks| :: Through(ticks[i], lo, jitter) && ticks[i].now > ZERO_TIME
  }

  /**
   Between messages: the alert is accepted and firing at both ends, the last
   accepted report was not due for repetition at `last`, and it reached the
   relay within a reminder period of the last message.
   */
  ghost predicate Waiting(l: Link, last: Time, lo: Duration) {
    && l.entry.Some? && l.entry.value.firing && l.entry.value.acked && IsFiring(l.record)
    && ZERO_TIME < l.entry.value.lastSent <= last < l.entry.value.lastSent + REMINDER_EVERY
    && l.entry.value.lastSent + lo < l.record.value.at + REMINDER_EVERY
  }

  lemma WaitingTurn(l: Link, severity: Severity, t: Tick, last: Time, period: Duration, lo: Duration, jitter: Duration)
    requires severity != InfoSev && t.v.firing && Through(t, lo, jitter) && Waiting(l, last, lo)
    requires last <= t.now <= last + period && period >= 0 && jitter >= 0
    ensures var k := Turn(l, t.v, severity, t.now, t.p);
            var posted := k.asked && Deliver(l.record, Post(Firing, t.p.relayNow, false, true)).posted;
            && Waiting(k.link, t.now, lo)
            && k.link.record.value.at == (if posted then t.p.relayNow else l.record.value.at)
            && t.p.relayNow - l.record.value.at < 2 * REMINDER_EVERY + period + jitter
  {
  }

  lemma GapsCons(x: Time, y: Time, rest: seq<Time>, gap: Duration)
    requires y - x < gap && GapsBelow([y] + rest, gap)
    ensures GapsBelow([x] + ([y] + rest), gap)
  {
    var all := [x] + ([y] + rest);
    forall i | 0 <= i < |all| - 1 ensures all[i + 1] - all[i] < gap {
      if i > 0 {
        assert all[i] == ([y] + rest)[i - 1] && all[i + 1] == ([y] + rest)[i];
      }
    }
  }

  /** From one message on, the next ones and the present are less than two reminder periods, one sample and the jitter apart. */
  lemma {:induction false} WaitingGaps(l: Link, severity: Severity, ticks: seq<Tick>, last: Time, period: Duration, lo: Duration, jitter: Duration)
    requires severity != InfoSev && AllFiring(ticks) && AllThrough(ticks, lo, jitter) && Sampled(last, ticks, period)
    requires Waiting(l, last, lo) && period >= 0 && jitter >= 0
    requires ticks != []
    ensures GapsBelow([l.record.value.at] + Posts(l, severity, ticks) + [ticks[|ticks| - 1].p.relayNow],
                      2 * REMINDER_EVERY + period + jitter)
    decreases |ticks|
  {
    var t, rest, gap := ticks[0], ticks[1..], 2 * REMINDER_EVERY + period + jitter;
    assert Through(t, lo, jitter);
    var k := Turn(l, t.v, severity, t.now, t.p);
    WaitingTurn(l, severity, t, last, period, lo, jitter);
    var at, end, later := l.record.value.at, ticks[|ticks| - 1].p.relayNow, Posts(k.link, severity, rest);
    if rest == [] {
      assert later == [];
      assert Posts(l, severity, ticks) == [] || Posts(l, severity, ticks) == [end];
    } else {
      assert rest[|rest| - 1] == ticks[|ticks| - 1];
      assert Sampled(t.now, rest, period) by {
        assert forall i | 0 < i < |rest| :: rest[i - 1] == ticks[i] && rest[i] == ticks[i + 1];
        assert rest[0] == ticks[1];
      }
      WaitingGaps(k.link, severity, rest, t.now, period, lo, jitter);
      if k.asked && Deliver(l.record, Post(Firing, t.p.relayNow, false, true)).posted {
        var y := t.p.relayNow;
        assert Posts(l, severity, ticks) == [y] + later;
        assert [y] + later + [end] == [y] + (later + [end]);
        GapsCons(at, y, later + [end], gap);
        assert [at] + Posts(l, severity, ticks) + [end] == [at] + ([y] + (later + [end]));
      }
    }
  }

  /**
   How long the chat waits. In a firing episode of a non-info alert whose
   requests all get through unmuted, evaluated at least every `period` and
   read by the relay's clock within `jitter` of each other, the first report
   is posted, and from then on no two messages in a row, nor the last one and
   the present, are two reminder periods plus `period` and `jitter` apart.
   */
  lemma {:induction false} ReminderGaps(l: Link, severity: Severity, ticks: seq<Tick>, period: Duration, lo: Duration, jitter: Duration)
    requires severity != InfoSev && ticks != [] && AllFiring(ticks) && AllThrough(ticks, lo, jitter)
    requires Sampled(ticks[0].now, ticks, period) && period >= 0 && jitter >= 0
    requires AgreesOn(l) && Plain(l.record) && !IsFiring(l.record)
    ensures var posts := Posts(l, severity, ticks);
            && posts != [] && posts[0] == ticks[0].p.relayNow
            && GapsBelow(posts + [ticks[|ticks| - 1].p.relayNow], 2 * REMINDER_EVERY + period + jitter)
  {
    var t, rest := ticks[0], ticks[1..];
    assert Through(t, lo, jitter);
    var k := Turn(l, t.v, severity, t.now, t.p);
    assert k.link.record == Some(SentRec(Firing, t.p.relayNow)) && Waiting(k.link, t.now, lo);
    if rest == [] {
      assert Posts(k.link, severity, rest) == [];
      assert Posts(l, severity, ticks) == [t.p.relayNow];
    } else {
      assert rest[|rest| - 1] == ticks[|ticks| - 1] && rest[0] == ticks[1];
      assert forall i | 0 < i < |rest| :: rest[i - 1] == ticks[i] && rest[i] == ticks[i + 1];
      WaitingGaps(k.link, severity, rest, t.now, period, lo, jitter);
      assert Posts(l, severity, ticks) == [t.p.relayNow] + Posts(k.link, severity, rest);
    }
  }

  // --- runs on which a promised message is late or lost -----------------------------

  lemma ServiceDownIsRule()
    ensures OnlyAt(RULES, 0) && RULES[0] == AlertInfo("service_down", Critical, false)
  {
    forall i | 0 < i < |RULES| ensures RULES[i].name != RULES[0].name {
      assert i in {1, 2, 3, 4, 5, 6, 7, 8, 9, 10, 11, 12, 13};
      assert RULES[i] == ALERTS[i];
      assert ALERTS[i].name[0] != 's' || ALERTS[i].name[1] != 'e';
    }
  }

  lemma UpdateAvailableIsRule()
    ensures OnlyAt(RULES, 13) && RULES[13] == AlertInfo("update_available", InfoSev, false)
  {
    forall i | 0 <= i < 13 ensures RULES[i].name != RULES[13].name {
      assert i in {0, 1, 2, 3, 4, 5, 6, 7, 8, 9, 10, 11, 12};
      assert RULES[i] == ALERTS[i];
      assert ALERTS[i].name[0] != 'u';
    }
  }

  /** A step at `now` that finds `v`, whose requests all get through, the report at the relay's `relayNow`. */
  function Plainly(name: string, now: Time, v: Verdict, relayNow: Time): Cycle {
    Cycle(Round(now, {name}, _ => v, _ => Handled(relayNow, false, true, true)),
          H.Sample(now, true, true, H.Done, 0, 0, H.Pillar(false, false, 0, 0)), Handled(relayNow, false, true, true), Accepted)
  }

  lemma {:induction false} TickedCons(l: Link, severity: Severity, t: Tick, rest: seq<Tick>)
    ensures Ticked(l, severity, [t] + rest) == Ticked(Turn(l, t.v, severity, t.now, t.p).link, severity, rest)
  {
    assert ([t] + rest)[1..] == rest;
  }

  /**
   The recovery message is lost: a daemon takes its baseline, reports its
   service down and has that accepted; it restarts after the service is up
   again. However many quiet steps the new daemon takes, and whatever its
   requests meet, the relay still holds the alert as firing.
   */
  lemma RecoveryCanBeLost(quiet: seq<Cycle>) returns (first: seq<Cycle>)
    requires quiet != []
    requires forall i | 0 <= i < |quiet| :: "service_down" in quiet[i].r.enabled && !quiet[i].r.judge("service_down").firing
    ensures |first| == 2
    ensures At(Run(System(map[], false, map[]), RULES, EventsOf(false, first)), "service_down")
         == Link(Some(AlertState(true, true, 2 * MINUTE, 2 * MINUTE, "down")), Some(SentRec(Firing, 2 * MINUTE)))
    ensures var s := Run(System(map[], false, map[]), RULES, EventsOf(false, first) + EventsOf(false, quiet));
            && "service_down" in s.alerts && !s.alerts["service_down"].firing
            && Find(s.sent, "service_down") == Some(SentRec(Firing, 2 * MINUTE))
  {
    ServiceDownIsRule();
    var name := "service_down";
    var up, down := Plainly(name, MINUTE, Verdict(false, ""), MINUTE), Plainly(name, 2 * MINUTE, Verdict(true, "down"), 2 * MINUTE);
    first := [up, down];
    var ticks := DaemonIsTicks(map[], 0, first);
    assert ticks == [Tick(2 * MINUTE, Verdict(true, "down"), Handled(2 * MINUTE, false, true, true))] + [];
    TickedCons(Link(Some(Baseline(Verdict(false, ""), MINUTE)), None), Critical, ticks[0], []);
    var reported := Run(System(map[], false, map[]), RULES, EventsOf(false, first));
    assert At(reported, name).record == Some(SentRec(Firing, 2 * MINUTE));
    var later := DaemonIsTicks(reported.sent, 0, quiet);
    forall i | 0 <= i < |later| ensures !later[i].v.firing {
      assert IsTick(later[i], quiet[i + 1], name);
    }
    QuietBaselineSendsNothing(Find(reported.sent, name), Baseline(quiet[0].r.judge(name), quiet[0].r.now), Critical, later);
    RestartForgets(reported, quiet);
    RunAppend(System(map[], false, map[]), RULES, EventsOf(false, first), EventsOf(false, quiet));
  }

  /** A new daemon starts from nothing, whatever the old one held. */
  lemma {:induction false} RestartForgets(s: System, cycles: seq<Cycle>)
    requires cycles != []
    ensures Run(s, RULES, EventsOf(false, cycles)) == Run(System(map[], false, s.sent), RULES, EventsOf(false, cycles))
  {
    var events := EventsOf(false, cycles);
    assert events[0] == Restarted(cycles[0].r, cycles[0].announced);
    assert Next(s, RULES, events[0]) == Next(System(map[], false, s.sent), RULES, events[0]);
  }

  /**
   A reminder is dropped: the first report takes two seconds to the relay,
   the reminder due ten minutes later only one. All three reports are
   accepted, but the chat hears nothing for twenty minutes.
   */
  lemma ReminderCanBeDropped() returns (cycles: seq<Cycle>, ticks: seq<Tick>)
    ensures var start := Link(Some(Baseline(Verdict(false, ""), MINUTE)), None);
            && At(Run(System(map[], false, map[]), RULES, EventsOf(false, cycles)), "service_down") == Ticked(start, Critical, ticks)
            && AllThrough(ticks, SECOND, SECOND) && AllFiring(ticks)
            && Acks(start, Critical, ticks) == [2 * MINUTE, 12 * MINUTE, 22 * MINUTE]
            && Posts(start, Critical, ticks) == [2 * MINUTE + 2 * SECOND, 22 * MINUTE + 2 * SECOND]
  {
    ServiceDownIsRule();
    var name, up, down := "service_down", Verdict(false, ""), Verdict(true, "down");
    cycles := [Plainly(name, MINUTE, up, MINUTE),
               Plainly(name, 2 * MINUTE, down, 2 * MINUTE + 2 * SECOND),
               Plainly(name, 12 * MINUTE, down, 12 * MINUTE + SECOND),
               Plainly(name, 22 * MINUTE, down, 22 * MINUTE + 2 * SECOND)];
    ticks := DaemonIsTicks(map[], 0, cycles);
    var t0, t1, t2 := ticks[0], ticks[1], ticks[2];
    assert IsTick(t0, cycles[1], name) && IsTick(t1, cycles[2], name) && IsTick(t2, cycles[3], name);
    assert ticks == [t0] + ([t1] + ([t2] + []));
    var l0 := Link(Some(Baseline(up, MINUTE)), None);
    var l1 := Turn(l0, t0.v, Critical, t0.now, t0.p).link;
    var l2 := Turn(l1, t1.v, Critical, t1.now, t1.p).link;
    var l3 := Turn(l2, t2.v, Critical, t2.now, t2.p).link;
    assert l2 == Link(Some(AlertState(true, true, 2 * MINUTE, 12 * MINUTE, "down")), Some(SentRec(Firing, 2 * MINUTE + 2 * SECOND)));
    assert Acks(l3, Critical, []) == [] && Posts(l3, Critical, []) == [];
    AcksAndPostsCons(l2, Critical, t2, []);
    AcksAndPostsCons(l1, Critical, t1, [t2] + []);
    AcksAndPostsCons(l0, Critical, t0, [t1] + ([t2] + []));
  }

  lemma {:induction false} AcksAndPostsCons(l: Link, severity: Severity, t: Tick, rest: seq<Tick>)
    requires t.p.Handled?
    ensures var k := Turn(l, t.v, severity, t.now, t.p);
            var posted := k.asked && Deliver(l.record, Post(Reported(t.v), t.p.relayNow, t.p.muted, t.p.sendOk)).posted;
            && Acks(l, severity, [t] + rest)
                 == (if k.asked && k.reply == Accepted then [t.now] else []) + Acks(k.link, severity, rest)
            && Posts(l, severity, [t] + rest) == (if posted then [t.p.relayNow] else []) + Posts(k.link, severity, rest)
  {
    assert ([t] + rest)[1..] == rest;
  }

  /** Two releases found a minute apart, by a daemon that started with none. */
  function TwoReleases(): seq<Cycle> {
    var name := "update_available";
    [Plainly(name, MINUTE, Verdict(false, ""), MINUTE),
     Plainly(name, 2 * MINUTE, Verdict(true, "v1"), 2 * MINUTE),
     Plainly(name, 3 * MINUTE, Verdict(true, "v2"), 3 * MINUTE)]
  }

  lemma SecondReleaseDropped()
    ensures At(Run(System(map[], false, map[]), RULES, EventsOf(false, TwoReleases())), "update_available")
         == Link(Some(AlertState(true, true, 2 * MINUTE, 3 * MINUTE, "v2")), Some(SentRec(Firing, 2 * MINUTE)))
  {
    UpdateAvailableIsRule();
    var cycles := TwoReleases();
    var ticks := DaemonIsTicks(map[], 13, cycles);
    var t0, t1 := ticks[0], ticks[1];
    assert IsTick(t0, cycles[1], "update_available") && IsTick(t1, cycles[2], "update_available");
    assert ticks == [t0] + ([t1] + []);
    var l0 := Link(Some(Baseline(Verdict(false, ""), MINUTE)), None);
    var l1 := Link(Some(AlertState(true, true, 2 * MINUTE, 2 * MINUTE, "v1")), Some(SentRec(Firing, 2 * MINUTE)));
    assert Turn(l0, t0.v, InfoSev, t0.now, t0.p).link == l1;
    TickedCons(l0, InfoSev, t0, [t1] + []);
    TickedCons(l1, InfoSev, t1, []);
  }

  /**
   A changed detail is swallowed: the second release is found a minute after
   the first was announced. It is accepted and not posted, and however long
   it is found again the chat never hears of it.
   */
  lemma {:induction false} DetailCanBeSwallowed(later: seq<Cycle>)
    requires forall i | 0 <= i < |later| ::
      "update_available" in later[i].r.enabled && later[i].r.judge("update_available") == Verdict(true, "v2")
    ensures At(Run(System(map[], false, map[]), RULES, EventsOf(false, TwoReleases() + later)), "update_available")
         == Link(Some(AlertState(true, true, 2 * MINUTE, 3 * MINUTE, "v2")), Some(SentRec(Firing, 2 * MINUTE)))
  {
    var first := TwoReleases();
    SecondReleaseDropped();
    UpdateAvailableIsRule();
    var s := Run(System(map[], false, map[]), RULES, EventsOf(false, first));
    var rest := StepsAreTicks(s, RULES, 13, later);
    forall i | 0 <= i < |rest| ensures rest[i].v == Verdict(true, "v2") {
      assert IsTick(rest[i], later[i], "update_available");
    }
    ChangedDetailPostedIff(AlertState(true, true, 2 * MINUTE, 2 * MINUTE, "v1"), 2 * MINUTE, Verdict(true, "v2"), 3 * MINUTE, 3 * MINUTE, rest);
    StepsAreRun(s, true, RULES, later);
    EventsAppend(false, first, later);
    RunAppend(System(map[], false, map[]), RULES, EventsOf(false, first), EventsOf(true, later));
  }

  lemma {:induction false} EventsAppend(evaluated: bool, a: seq<Cycle>, b: seq<Cycle>)
    ensures EventsOf(evaluated, a + b) == EventsOf(evaluated, a) + EventsOf(evaluated || a != [], b)
    decreases |a|
  {
    if a == [] {
      assert a + b == b;
    } else {
      assert (a + b)[1..] == a[1..] + b;
      EventsAppend(true, a[1..], b);
    }
  }
}
