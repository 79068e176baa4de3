/**
 What the daemon and the relay keep together, over whole runs of lossy
 rounds: agreement, bounded traffic, and exactly where the promises stop.
 */
module Protocol {
  import opened Common
  import opened AlertProto
  import opened Delivery
  import opened AlertDaemon
  import H = History

  // --- agreement --------------------------------------------------------------

  /** What happens to one pairing between two observations. */
  datatype Event =
    | Evaluated(round: Round)
    | Restarted(round: Round, announced: Passage)
    | HeartbeatAnswered(reply: Reply)
    | RelayRaised(record: SentRec)

  /**
   One event: an evaluation round; a daemon restart, which forgets every
   entry and takes baselines; the reply to a heartbeat, which may be the
   unpaired verdict; the relay recording its own node_silent.
   */
  function Next(s: System, rules: seq<AlertInfo>, e: Event): System {
    match e
    case Evaluated(r) => Evaluate(s, rules, r)
    case Restarted(r, announced) => System(Baselines(map[], rules, r), announced == UnknownNode, s.sent)
    case HeartbeatAnswered(reply) => s.(unpaired := s.unpaired || reply == Unpaired)
    case RelayRaised(record) => s.(sent := s.sent[NODE_SILENT := record])
  }

  function Run(s: System, rules: seq<AlertInfo>, events: seq<Event>): System
    decreases |events|
  {
    if events == [] then s else Run(Next(s, rules, events[0]), rules, events[1..])
  }

  ghost predicate AgreesOn(l: Link) {
    l.entry.Some? && l.entry.value.lastSent != ZERO_TIME ==> (l.entry.value.firing <==> IsFiring(l.record))
  }

  /** Every entry the relay ever accepted says what the relay recorded. */
  ghost predicate Agrees(s: System) {
    forall name :: AgreesOn(At(s, name))
  }

  /** Agreement, with the two facts it rests on. */
  ghost predicate Good(s: System) {
    && Agrees(s)
    && (forall name | name in s.sent :: s.sent[name].state != Info)
    && NODE_SILENT !in s.alerts
  }

  /** A node's own rules never carry the relay's alert name. */
  ghost predicate OwnRules(rules: seq<AlertInfo>) {
    forall i | 0 <= i < |rules| :: rules[i].name != NODE_SILENT
  }

  ghost predicate RelayKeepsPlain(e: Event) {
    e.RelayRaised? ==> e.record.state != Info
  }

  lemma DaemonRulesAreOwn()
    ensures OwnRules(RULES) && |RULES| == 14
    ensures forall i | 0 <= i < |RULES| :: Known(RULES[i].name)
  {
    forall i | 0 <= i < |RULES| ensures RULES[i].name != NODE_SILENT && Known(RULES[i].name) {
      assert i in {0, 1, 2, 3, 4, 5, 6, 7, 8, 9, 10, 11, 12, 13};
      assert RULES[i] == ALERTS[i];
      assert ALERTS[i].name[0] != 'n' || ALERTS[i].name[2] != NODE_SILENT[2];
    }
  }

  /** One turn of one alert keeps both ends agreed, whatever happens to the request. */
  lemma TurnAgrees(l: Link, v: Verdict, severity: Severity, now: Time, p: Passage)
    requires AgreesOn(l) && Plain(l.record)
    ensures var t := Turn(l, v, severity, now, p);
            AgreesOn(t.link) && Plain(t.link.record)
  {
  }

  lemma RuleStepGood(s: System, rule: AlertInfo, r: Round)
    requires Good(s) && rule.name != NODE_SILENT
    ensures Good(RuleStep(s, rule, r))
  {
    var s' := RuleStep(s, rule, r);
    assert AgreesOn(At(s, rule.name));
    if rule.name in r.enabled {
      TurnAgrees(At(s, rule.name), r.judge(rule.name), rule.severity, r.now,
                 if s.unpaired then Refused else r.net(rule.name));
    }
    forall name ensures AgreesOn(At(s', name)) {
      if name != rule.name {
        assert AgreesOn(At(s, name));
        assert At(s', name) == At(s, name);
      }
    }
  }

  lemma {:induction false} EvaluateGood(s: System, rules: seq<AlertInfo>, r: Round)
    requires Good(s) && OwnRules(rules)
    ensures Good(Evaluate(s, rules, r))
    decreases |rules|
  {
    if rules != [] {
      RuleStepGood(s, rules[0], r);
      EvaluateGood(RuleStep(s, rules[0], r), rules[1..], r);
    }
  }

  lemma {:induction false} BaselinesUnsent(alerts: map<string, AlertState>, rules: seq<AlertInfo>, r: Round)
    requires OwnRules(rules)
    requires NODE_SILENT !in alerts && forall name | name in alerts :: alerts[name].lastSent == ZERO_TIME
    ensures var b := Baselines(alerts, rules, r);
            NODE_SILENT !in b && forall name | name in b :: b[name].lastSent == ZERO_TIME
    decreases |rules|
  {
    if rules != [] {
      var name := rules[0].name;
      BaselinesUnsent(if name in r.enabled then alerts[name := Baseline(r.judge(name), r.now)] else alerts, rules[1..], r);
    }
  }

  lemma NextGood(s: System, rules: seq<AlertInfo>, e: Event)
    requires Good(s) && OwnRules(rules) && RelayKeepsPlain(e)
    ensures Good(Next(s, rules, e))
  {
    match e
    case Evaluated(r) =>
      EvaluateGood(s, rules, r);
    case Restarted(r, _) =>
      BaselinesUnsent(map[], rules, r);
    case HeartbeatAnswered(_) =>
      forall name ensures AgreesOn(At(Next(s, rules, e), name)) {
        assert AgreesOn(At(s, name));
      }
    case RelayRaised(record) =>
      var s' := Next(s, rules, e);
      forall name ensures AgreesOn(At(s', name)) {
        assert AgreesOn(At(s, name));
      }
  }

  /**
   Daemon and relay agree. While one pairing lasts, in every state reachable
   under any mix of refused, failed, lost-reply and accepted requests,
   disabled rules, daemon restarts and relay-raised alerts, an entry the
   relay accepted is firing exactly when the relay's record is.
   */
  lemma {:induction false} Agreement(s: System, events: seq<Event>)
    requires Good(s) && forall i | 0 <= i < |events| :: RelayKeepsPlain(events[i])
    ensures Good(Run(s, RULES, events))
    decreases |events|
  {
    if events != [] {
      DaemonRulesAreOwn();
      NextGood(s, RULES, events[0]);
      Agreement(Next(s, RULES, events[0]), events[1..]);
    }
  }

  /** A daemon that has evaluated nothing agrees with any relay. */
  lemma FreshDaemonAgrees(sent: map<string, SentRec>)
    requires forall name | name in sent :: sent[name].state != Info
    ensures Good(System(map[], false, sent))
  {
  }

  /** The rule's value differs from the entry's, so a new episode begins; a missing entry takes the value as it is. */
  predicate Flips(prev: Option<AlertState>, v: Verdict) {
    prev.Some? && prev.value.firing != v.firing
  }

  /** News the relay has not acknowledged: a flip, an earlier failure, or a changed detail of a firing info alert. */
  predicate Pending(prev: Option<AlertState>, v: Verdict, severity: Severity) {
    || Flips(prev, v)
    || (prev.Some? && !prev.value.acked)
    || (prev.Some? && v.firing && severity == InfoSev && prev.value.detail != "" && prev.value.detail != v.detail)
  }

  /** A firing alert, unless info, is reported until accepted and then every reminder period. */
  predicate ReminderDue(prev: Option<AlertState>, v: Verdict, severity: Severity, now: Time) {
    v.firing && severity != InfoSev &&
    (prev.Some? ==> prev.value.lastSent == ZERO_TIME || now - prev.value.lastSent >= REMINDER_EVERY)
  }

  /**
   A report is made exactly when there is news or a reminder is due. So a
   rule enabled while its info alert fires adopts it silently, and so does
   one whose detail was empty.
   */
  lemma AskedIff(l: Link, v: Verdict, severity: Severity, now: Time, p: Passage)
    ensures Turn(l, v, severity, now, p).asked <==> Pending(l.entry, v, severity) || ReminderDue(l.entry, v, severity, now)
  {
  }

  /** What the daemon holds after an evaluation: the verdict, acknowledged unless there was news and it was not accepted. */
  lemma EntryAfter(l: Link, v: Verdict, severity: Severity, now: Time, p: Passage)
    ensures var t := Turn(l, v, severity, now, p);
            var starts, accepted := l.entry.None? || Flips(l.entry, v), t.asked && t.reply == Accepted;
            t.link.entry == Some(AlertState(
              v.firing,
              accepted || !Pending(l.entry, v, severity),
              if starts then now else l.entry.value.since,
              if accepted then now else if starts then ZERO_TIME else l.entry.value.lastSent,
              if v.firing then v.detail else if starts then "" else l.entry.value.detail))
  {
  }

  /** Whatever the two ends held before, one accepted report makes them agree. */
  lemma AcceptedHeals(l: Link, v: Verdict, severity: Severity, now: Time, p: Passage)
    requires Plain(l.record)
    ensures var t := Turn(l, v, severity, now, p);
            t.asked && t.reply == Accepted ==> (v.firing <==> IsFiring(t.link.record)) && t.link.entry == Some(
              Prepare(l.entry, v, severity, now).(acked := true, lastSent := now))
  {
  }

  // --- the unpaired verdict ---------------------------------------------------------

  /** The verdict latches with the first report the relay answers so, and with such an announcement. */
  lemma UnknownNodeLatches(s: System, rules: seq<AlertInfo>, rule: AlertInfo, r: Round)
    ensures rule.name in r.enabled && !s.unpaired && r.net(rule.name) == UnknownNode
            && (Pending(Find(s.alerts, rule.name), r.judge(rule.name), rule.severity)
                || ReminderDue(Find(s.alerts, rule.name), r.judge(rule.name), rule.severity, r.now))
            ==> RuleStep(s, rule, r).unpaired
    ensures Next(s, rules, Restarted(r, UnknownNode)).unpaired
  {
  }

  lemma {:induction false} UnpairedRound(s: System, rules: seq<AlertInfo>, r: Round)
    requires s.unpaired
    ensures Evaluate(s, rules, r).unpaired && Evaluate(s, rules, r).sent == s.sent
    decreases |rules|
  {
    if rules != [] {
      UnpairedRound(RuleStep(s, rules[0], r), rules[1..], r);
    }
  }

  /** Until it starts again, an unpaired daemon changes nothing at the relay. */
  lemma {:induction false} UnpairedIsSilent(s: System, rules: seq<AlertInfo>, events: seq<Event>)
    requires s.unpaired && forall i | 0 <= i < |events| :: events[i].Evaluated? || events[i].HeartbeatAnswered?
    ensures Run(s, rules, events).unpaired && Run(s, rules, events).sent == s.sent
    decreases |events|
  {
    if events != [] {
      if events[0].Evaluated? {
        UnpairedRound(s, rules, events[0].round);
      }
      UnpairedIsSilent(Next(s, rules, events[0]), rules, events[1..]);
    }
  }

  // --- the daemon's own loop is such a run ------------------------------------------

  /** What one step of the daemon meets. */
  datatype Cycle = Cycle(r: Round, sample: H.Sample, announced: Passage, heartbeat: Reply)

  /** The steps of one daemon, `evaluated` saying whether its first one is behind it. */
  function Steps(s: System, evaluated: bool, rules: seq<AlertInfo>, cycles: seq<Cycle>): System
    decreases |cycles|
  {
    if cycles == [] then s
    else Steps(Stepped(s, evaluated, rules, cycles[0].r, cycles[0].announced, cycles[0].heartbeat), true, rules, cycles[1..])
  }

  /** The events those steps are: a restart or a round, then the heartbeat's reply. */
  function EventsOf(evaluated: bool, cycles: seq<Cycle>): seq<Event>
    decreases |cycles|
  {
    if cycles == [] then []
    else
      var c := cycles[0];
      [if evaluated then Evaluated(c.r) else Restarted(c.r, c.announced), HeartbeatAnswered(c.heartbeat)]
      + EventsOf(true, cycles[1..])
  }

  lemma {:induction false} RunAppend(s: System, rules: seq<AlertInfo>, a: seq<Event>, b: seq<Event>)
    ensures Run(s, rules, a + b) == Run(Run(s, rules, a), rules, b)
    decreases |a|
  {
    if a == [] {
      assert a + b == b;
    } else {
      assert (a + b)[1..] == a[1..] + b;
      RunAppend(Next(s, rules, a[0]), rules, a[1..], b);
    }
  }

  /** One step of the daemon is two events of a run. */
  lemma {:induction false} StepIsRun(s: System, evaluated: bool, rules: seq<AlertInfo>, c: Cycle)
    requires !evaluated ==> s.alerts == map[] && !s.unpaired
    ensures Stepped(s, evaluated, rules, c.r, c.announced, c.heartbeat) == Run(s, rules, EventsOf(evaluated, [c]))
  {
    var observed := if evaluated then Evaluated(c.r) else Restarted(c.r, c.announced);
    assert EventsOf(true, [c][1..]) == [];
    assert EventsOf(evaluated, [c]) == [observed, HeartbeatAnswered(c.heartbeat)];
    RunTwo(s, rules, observed, HeartbeatAnswered(c.heartbeat));
  }

  lemma {:induction false} RunTwo(s: System, rules: seq<AlertInfo>, a: Event, b: Event)
    ensures Run(s, rules, [a, b]) == Next(Next(s, rules, a), rules, b)
  {
    assert [a, b][1..] == [b] && [b][1..] == [];
    assert Run(Next(s, rules, a), rules, [b]) == Run(Next(Next(s, rules, a), rules, b), rules, []);
  }

  lemma {:induction false} StepsAreRun(s: System, evaluated: bool, rules: seq<AlertInfo>, cycles: seq<Cycle>)
    requires !evaluated ==> s.alerts == map[] && !s.unpaired
    ensures Steps(s, evaluated, rules, cycles) == Run(s, rules, EventsOf(evaluated, cycles))
    decreases |cycles|
  {
    if cycles != [] {
      var c := cycles[0];
      StepIsRun(s, evaluated, rules, c);
      StepsAreRun(Stepped(s, evaluated, rules, c.r, c.announced, c.heartbeat), true, rules, cycles[1..]);
      assert EventsOf(true, [c][1..]) == [];
      assert EventsOf(evaluated, cycles) == EventsOf(evaluated, [c]) + EventsOf(true, cycles[1..]);
      RunAppend(s, rules, EventsOf(evaluated, [c]), EventsOf(true, cycles[1..]));
    }
  }

  /** Steps taken one after the other, the last one apart. */
  lemma {:induction false} StepsAppend(s: System, evaluated: bool, rules: seq<AlertInfo>, cycles: seq<Cycle>, c: Cycle)
    ensures var s1 := Steps(s, evaluated, rules, cycles);
            Steps(s, evaluated, rules, cycles + [c])
              == Stepped(s1, evaluated || cycles != [], rules, c.r, c.announced, c.heartbeat)
    decreases |cycles|
  {
    if cycles == [] {
      assert cycles + [c] == [c] && [c][1..] == [];
    } else {
      var first := cycles[0];
      assert (cycles + [c])[1..] == cycles[1..] + [c];
      StepsAppend(Stepped(s, evaluated, rules, first.r, first.announced, first.heartbeat), true, rules, cycles[1..], c);
    }
  }

  /**
   The daemon's loop, from its start: whatever its steps meet, the two ends
   pass through a run of the protocol, so they agree throughout.
   */
  method RunDaemon(relay: Relay, cycles: seq<Cycle>) returns (d: Daemon)
    modifies relay
    ensures fresh(d) && d.relay == relay
    ensures d.State() == Run(System(map[], false, old(relay.sent)), RULES, EventsOf(false, cycles))
    ensures (forall name | name in old(relay.sent) :: old(relay.sent)[name].state != Info) ==> Good(d.State())
  {
    ghost var start := System(map[], false, relay.sent);
    d := new Daemon(relay);
    for i := 0 to |cycles|
      invariant fresh(d) && d.relay == relay && d.evaluated == (i > 0)
      invariant d.State() == Steps(start, false, RULES, cycles[..i])
    {
      var c := cycles[i];
      StepsAppend(start, false, RULES, cycles[..i], c);
      assert cycles[..i + 1] == cycles[..i] + [c];
      d.Step(RULES, c.r, c.sample, c.announced, c.heartbeat);
    }
    assert cycles[..|cycles|] == cycles;
    StepsAreRun(start, false, RULES, cycles);
    if forall name | name in start.sent :: start.sent[name].state != Info {
      FreshDaemonAgrees(start.sent);
      NoRelayEvents(false, cycles);
      Agreement(start, EventsOf(false, cycles));
    }
  }

  lemma {:induction false} NoRelayEvents(evaluated: bool, cycles: seq<Cycle>)
    ensures forall i | 0 <= i < |EventsOf(evaluated, cycles)| :: RelayKeepsPlain(EventsOf(evaluated, cycles)[i])
    decreases |cycles|
  {
    if cycles != [] {
      NoRelayEvents(true, cycles[1..]);
    }
  }

  // --- where agreement stops: a new pairing, a new daemon -------------------------

  /**
   Pairing again keeps the daemon's entries but starts from empty relay
   records. Agreement survives exactly when no accepted entry is firing.
   */
  lemma RepairAgreesIff(alerts: map<string, AlertState>)
    ensures Agrees(System(alerts, false, map[]))
       <==> forall name | name in alerts && alerts[name].lastSent != ZERO_TIME :: !alerts[name].firing
  {
    var s := System(alerts, false, map[]);
    forall name | name in alerts && AgreesOn(At(s, name)) && alerts[name].lastSent != ZERO_TIME
      ensures !alerts[name].firing
    {
    }
  }

  /** One reachable state that a new pairing leaves in disagreement. */
  lemma RepairCanDisagree(rule: AlertInfo, r: Round) returns (s: System)
    requires rule.name in r.enabled && r.judge(rule.name).firing && r.now > ZERO_TIME && rule.severity != InfoSev
    requires r.net(rule.name) == Handled(r.now, false, true, true)
    ensures s == Run(System(map[], false, map[]), [rule], [Evaluated(r)])
    ensures rule.name != NODE_SILENT ==> Good(s)
    ensures !Agrees(System(s.alerts, false, map[]))
  {
    var s0 := System(map[], false, map[]);
    assert [Evaluated(r)][1..] == [] && [rule][1..] == [];
    s := RuleStep(s0, rule, r);
    assert Evaluate(s0, [rule], r) == s;
    if rule.name != NODE_SILENT {
      RuleStepGood(s0, rule, r);
    }
    assert !AgreesOn(At(System(s.alerts, false, map[]), rule.name));
  }

  /** One evaluation of one alert: the clock, the verdict, the request's fate. */
  datatype Tick = Tick(now: Time, v: Verdict, p: Passage)

  function Ticked(l: Link, severity: Severity, ticks: seq<Tick>): Link
    decreases |ticks|
  {
    if ticks == [] then l
    else Ticked(Turn(l, ticks[0].v, severity, ticks[0].now, ticks[0].p).link, severity, ticks[1..])
  }

  ghost predicate AllQuiet(ticks: seq<Tick>) {
    forall i | 0 <= i < |ticks| :: !ticks[i].v.firing
  }

  ghost predicate AllFiring(ticks: seq<Tick>) {
    forall i | 0 <= i < |ticks| :: ticks[i].v.firing
  }

  /**
   The promised recovery message is lost when a baseline is taken while the
   relay still holds the alert as firing (a daemon restarted, or a rule
   disabled and enabled again, across the recovery): as long as the rule
   stays quiet nothing is sent, so the relay ends up firing exactly when it
   was firing at the baseline.
   */
  lemma {:induction false} QuietBaselineSendsNothing(record: Option<SentRec>, e: AlertState, severity: Severity, ticks: seq<Tick>)
    requires !e.firing && e.acked && AllQuiet(ticks)
    ensures Ticked(Link(Some(e), record), severity, ticks) == Link(Some(e), record)
    decreases |ticks|
  {
    if ticks != [] {
      QuietBaselineSendsNothing(record, e, severity, ticks[1..]);
    }
  }

  lemma {:induction false} RecoveryAfterBaselineIff(record: Option<SentRec>, v: Verdict, now: Time, severity: Severity, ticks: seq<Tick>)
    requires !v.firing && AllQuiet(ticks)
    ensures IsFiring(Ticked(Link(Some(Baseline(v, now)), record), severity, ticks).record) <==> IsFiring(record)
  {
    QuietBaselineSendsNothing(record, Baseline(v, now), severity, ticks);
  }

  // --- bounded traffic --------------------------------------------------------------

  /** The times at which the daemon saw a report accepted. */
  function Acks(l: Link, severity: Severity, ticks: seq<Tick>): seq<Time>
    decreases |ticks|
  {
    if ticks == [] then []
    else
      var t := Turn(l, ticks[0].v, severity, ticks[0].now, ticks[0].p);
      var rest := Acks(t.link, severity, ticks[1..]);
      if t.asked && t.reply == Accepted then [ticks[0].now] + rest else rest
  }

  /** One nondecreasing daemon clock, past the zero time. */
  ghost predicate DaemonClock(ticks: seq<Tick>) {
    && (forall i | 0 <= i < |ticks| :: ticks[i].now > ZERO_TIME)
    && (forall i, j | 0 <= i <= j < |ticks| :: ticks[i].now <= ticks[j].now)
  }

  lemma {:induction false} AcksAfterAck(l: Link, severity: Severity, ticks: seq<Tick>)
    requires severity != InfoSev && ticks != [] && DaemonClock(ticks) && AllFiring(ticks)
    requires l.entry.Some? && l.entry.value.firing && l.entry.value.acked
    requires ZERO_TIME < l.entry.value.lastSent <= ticks[0].now
    ensures |Acks(l, severity, ticks)| * REMINDER_EVERY <= ticks[|ticks| - 1].now - l.entry.value.lastSent
    decreases |ticks|
  {
    var t, rest := Turn(l, ticks[0].v, severity, ticks[0].now, ticks[0].p), ticks[1..];
    if rest == [] {
      assert Acks(t.link, severity, rest) == [];
    } else {
      assert rest[|rest| - 1] == ticks[|ticks| - 1];
      AcksAfterAck(t.link, severity, rest);
    }
  }

  lemma {:induction false} AckSpacing(l: Link, severity: Severity, ticks: seq<Tick>)
    requires severity != InfoSev && ticks != [] && DaemonClock(ticks) && AllFiring(ticks)
    ensures var n := |Acks(l, severity, ticks)|;
            n > 0 ==> (n - 1) * REMINDER_EVERY <= ticks[|ticks| - 1].now - ticks[0].now
    decreases |ticks|
  {
    var t, rest := Turn(l, ticks[0].v, severity, ticks[0].now, ticks[0].p), ticks[1..];
    if rest == [] {
      assert Acks(t.link, severity, rest) == [];
    } else {
      assert rest[|rest| - 1] == ticks[|ticks| - 1] && rest[0] == ticks[1];
      if t.asked && t.reply == Accepted {
        AcksAfterAck(t.link, severity, rest);
      } else {
        AckSpacing(t.link, severity, rest);
      }
    }
  }

  /**
   In one firing episode of length T the daemon sees at most
   1 + T / REMINDER_EVERY reports of a non-info alert accepted.
   */
  lemma {:induction false} FiringAcksBounded(l: Link, severity: Severity, ticks: seq<Tick>)
    requires severity != InfoSev && ticks != [] && DaemonClock(ticks) && AllFiring(ticks)
    ensures |Acks(l, severity, ticks)| <= 1 + (ticks[|ticks| - 1].now - ticks[0].now) / REMINDER_EVERY
  {
    AckSpacing(l, severity, ticks);
    CountFromSpacing(|Acks(l, severity, ticks)|, ticks[|ticks| - 1].now - ticks[0].now);
  }

  /** How often the detail differs from the one before, starting from `detail`. */
  function DetailChanges(detail: string, ticks: seq<Tick>): nat
    decreases |ticks|
  {
    if ticks == [] then 0
    else (if ticks[0].v.detail != detail then 1 else 0) + DetailChanges(ticks[0].v.detail, ticks[1..])
  }

  lemma {:induction false} InfoAcksAfterStart(l: Link, ticks: seq<Tick>)
    requires AllFiring(ticks) && l.entry.Some? && l.entry.value.firing
    ensures |Acks(l, InfoSev, ticks)| <= (if l.entry.value.acked then 0 else 1) + DetailChanges(l.entry.value.detail, ticks)
    decreases |ticks|
  {
    if ticks != [] {
      InfoAcksAfterStart(Turn(l, ticks[0].v, InfoSev, ticks[0].now, ticks[0].p).link, ticks[1..]);
    }
  }

  /**
   In one firing episode of an info alert at most one report is accepted
   plus one for every change of its detail.
   */
  lemma {:induction false} InfoAcksBounded(l: Link, ticks: seq<Tick>)
    requires ticks != [] && AllFiring(ticks)
    requires l.entry.Some? ==> !l.entry.value.firing
    ensures |Acks(l, InfoSev, ticks)| <= 1 + DetailChanges(ticks[0].v.detail, ticks[1..])
  {
    InfoAcksAfterStart(Turn(l, ticks[0].v, InfoSev, ticks[0].now, ticks[0].p).link, ticks[1..]);
  }

  /** A recovery is accepted at most once, and not again once acknowledged. */
  lemma {:induction false} RecoveryAckedOnce(l: Link, severity: Severity, ticks: seq<Tick>)
    requires AllQuiet(ticks)
    ensures |Acks(l, severity, ticks)| <= 1
    ensures l.entry.Some? && l.entry.value.acked && !l.entry.value.firing ==> Acks(l, severity, ticks) == []
    decreases |ticks|
  {
    if ticks != [] {
      RecoveryAckedOnce(Turn(l, ticks[0].v, severity, ticks[0].now, ticks[0].p).link, severity, ticks[1..]);
    }
  }

  /** A request that gets through in both directions. */
  predicate GoesThrough(p: Passage) {
    p.Handled? && p.sendOk && p.replied
  }

  /**
   A transition stays pending until the relay confirms it: while the rule
   keeps its value every evaluation asks again, so the first request that
   gets through settles it, and leaves both ends with the new value.
   */
  lemma {:induction false} PendingUntilConfirmed(l: Link, severity: Severity, ticks: seq<Tick>, firing: bool)
    requires Plain(l.record)
    requires l.entry.Some? && (l.entry.value.firing != firing || !l.entry.value.acked)
    requires forall i | 0 <= i < |ticks| :: ticks[i].v.firing == firing
    requires exists i | 0 <= i < |ticks| :: GoesThrough(ticks[i].p)
    ensures Acks(l, severity, ticks) != []
    ensures var done := Ticked(l, severity, ticks);
            done.entry.Some? && done.entry.value.firing == firing && (IsFiring(done.record) <==> firing)
    decreases |ticks|
  {
    var t := Turn(l, ticks[0].v, severity, ticks[0].now, ticks[0].p);
    assert t.asked;
    if t.reply == Accepted {
      SettledStays(t.link, severity, ticks[1..], firing);
    } else {
      var i :| 0 <= i < |ticks| && GoesThrough(ticks[i].p);
      assert i > 0 && ticks[1..][i - 1] == ticks[i];
      PendingUntilConfirmed(t.link, severity, ticks[1..], firing);
    }
  }

  /** Once both ends hold a value, no fate of later requests changes it while the rule keeps it. */
  lemma {:induction false} SettledStays(l: Link, severity: Severity, ticks: seq<Tick>, firing: bool)
    requires Plain(l.record) && (IsFiring(l.record) <==> firing)
    requires l.entry.Some? && l.entry.value.firing == firing
    requires forall i | 0 <= i < |ticks| :: ticks[i].v.firing == firing
    ensures var done := Ticked(l, severity, ticks);
            done.entry.Some? && done.entry.value.firing == firing && (IsFiring(done.record) <==> firing)
    decreases |ticks|
  {
    if ticks != [] {
      SettledStays(Turn(l, ticks[0].v, severity, ticks[0].now, ticks[0].p).link, severity, ticks[1..], firing);
    }
  }

  // --- accepted is not delivered -------------------------------------------------------

  /**
   A due reminder is always accepted, but it reaches the chat only when the
   relay's clock has also moved on by the reminder period. With the delays
   `first` and `second` between the two clocks readings that is exactly when
   the reminder is late enough to make up for travelling faster.
   */
  lemma ReminderPostedIff(e: AlertState, v: Verdict, severity: Severity, now: Time, first: Duration, second: Duration)
    requires severity != InfoSev && v.firing && e.firing && e.acked && e.lastSent != ZERO_TIME
    requires now - e.lastSent >= REMINDER_EVERY
    ensures var record := Some(SentRec(Firing, e.lastSent + first));
            var p := Handled(now + second, false, true, true);
            var t := Turn(Link(Some(e), record), v, severity, now, p);
            && t.asked && t.reply == Accepted && t.link.entry.value.lastSent == now
            && (Deliver(record, Post(Firing, now + second, false, true)).posted
                <==> now - e.lastSent - REMINDER_EVERY >= first - second)
  {
  }

  /**
   The daemon reports a changed detail of an info alert as a new event, and
   the relay accepts it; but within a reminder period of the last record it
   is dropped, and the daemon, holding it acknowledged, never offers it again.
   */
  lemma {:induction false} ChangedDetailPostedIff(e: AlertState, at: Time, v: Verdict, now: Time, relayNow: Time, ticks: seq<Tick>)
    requires v.firing && e.firing && e.acked && e.detail != "" && e.detail != v.detail
    requires forall i | 0 <= i < |ticks| :: ticks[i].v == v
    ensures var record := Some(SentRec(Firing, at));
            var t := Turn(Link(Some(e), record), v, InfoSev, now, Handled(relayNow, false, true, true));
            && t.asked && t.reply == Accepted
            && (Deliver(record, Post(Firing, relayNow, false, true)).posted <==> relayNow - at >= REMINDER_EVERY)
            && Ticked(t.link, InfoSev, ticks) == t.link
    decreases |ticks|
  {
    if ticks != [] {
      ChangedDetailPostedIff(e, at, v, now, relayNow, ticks[1..]);
    }
  }
}
