/**
 The node's alert daemon: one acknowledge-and-retry record per alert, kept
 in step with a relay it reaches over a lossy channel.
 */
module AlertDaemon {
  import opened Common
  import opened AlertProto
  import opened Delivery
  import opened History

  /**
   The daemon's memory of one alert. `acked` is false while the relay has not
   accepted the current value; a zero `lastSent` means nothing was accepted
   since that value was taken.
   */
  datatype AlertState = AlertState(firing: bool, acked: bool, since: Time, lastSent: Time, detail: string)

  /** What evaluating a rule yields. */
  datatype Verdict = Verdict(firing: bool, detail: string)

  /** What the daemon hears back: 2xx, the relay's "unknown node", or any other failure. */
  datatype Reply = Accepted | Unpaired | Failed

  /**
   How one request fares. Refused covers a lost request and every refusal
   without effect; UnknownNode is a relay that forgot the node; a handled
   request was delivered under the relay's clock, mute and send outcome, and
   its reply may be lost.
   */
  datatype Passage =
    | Refused
    | UnknownNode
    | Handled(relayNow: Time, muted: bool, sendOk: bool, replied: bool)

  // --- one alert ------------------------------------------------------------

  /** The record before sending: the previous one moved to the new verdict. */
  function Prepare(prev: Option<AlertState>, v: Verdict, severity: Severity, now: Time): AlertState {
    var known := if prev.Some? then prev.value else AlertState(v.firing, true, now, ZERO_TIME, "");
    var e := if v.firing != known.firing then AlertState(v.firing, false, now, ZERO_TIME, "") else known;
    if v.firing then
      var news := severity == InfoSev && e.acked && e.detail != "" && e.detail != v.detail;
      e.(acked := e.acked && !news, detail := v.detail)
    else e
  }

  /** Must the prepared record be reported now? */
  predicate NeedSend(e: AlertState, v: Verdict, severity: Severity, now: Time) {
    var remind := severity != InfoSev && (e.lastSent == ZERO_TIME || now - e.lastSent >= REMINDER_EVERY);
    !e.acked || (v.firing && remind)
  }

  /** The first evaluation's silent baseline. */
  function Baseline(v: Verdict, now: Time): AlertState {
    AlertState(v.firing, true, now, ZERO_TIME, v.detail)
  }

  function Reported(v: Verdict): State {
    if v.firing then Firing else Ok
  }

  /** Both ends of one alert: the daemon's entry and the relay's record. */
  datatype Link = Link(entry: Option<AlertState>, record: Option<SentRec>)

  /** Both ends after one evaluation, whether a request was made, and what came back. */
  datatype Turned = Turned(link: Link, asked: bool, reply: Reply)

  /** The relay's record and the reply after one request. */
  function Exchange(record: Option<SentRec>, state: State, p: Passage): (Reply, Option<SentRec>) {
    match p
    case Refused => (Failed, record)
    case UnknownNode => (Unpaired, record)
    case Handled(relayNow, muted, sendOk, replied) =>
      var d := Deliver(record, Post(state, relayNow, muted, sendOk));
      (if d.accepted && replied then Accepted else Failed, d.record)
  }

  function Turn(l: Link, v: Verdict, severity: Severity, now: Time, p: Passage): Turned {
    var e := Prepare(l.entry, v, severity, now);
    if NeedSend(e, v, severity, now) then
      var (reply, record) := Exchange(l.record, Reported(v), p);
      Turned(Link(Some(if reply == Accepted then e.(acked := true, lastSent := now) else e), record), true, reply)
    else
      Turned(Link(Some(e), l.record), false, Failed)
  }

  // --- all alerts of one node ---------------------------------------------------

  /** The daemon's records and the relay's records for this node. */
  datatype System = System(alerts: map<string, AlertState>, unpaired: bool, sent: map<string, SentRec>)

  /** What one round of evaluation meets: its clock, the enabled rules, their verdicts, each request's fate. */
  datatype Round = Round(now: Time, enabled: set<string>, judge: string -> Verdict, net: string -> Passage)

  function At(s: System, name: string): Link {
    Link(Find(s.alerts, name), Find(s.sent, name))
  }

  /** One rule of a round. An unpaired daemon makes no request, which has the effect of a refused one. */
  function RuleStep(s: System, rule: AlertInfo, r: Round): System {
    if rule.name !in r.enabled then s.(alerts := s.alerts - {rule.name})
    else
      var t := Turn(At(s, rule.name), r.judge(rule.name), rule.severity, r.now,
                    if s.unpaired then Refused else r.net(rule.name));
      System(Store(s.alerts, rule.name, t.link.entry),
             s.unpaired || t.reply == Unpaired,
             Store(s.sent, rule.name, t.link.record))
  }

  function Evaluate(s: System, rules: seq<AlertInfo>, r: Round): System
    decreases |rules|
  {
    if rules == [] then s else Evaluate(RuleStep(s, rules[0], r), rules[1..], r)
  }

  /** The baseline of every enabled rule, taken by the first step of a daemon. */
  function Baselines(alerts: map<string, AlertState>, rules: seq<AlertInfo>, r: Round): map<string, AlertState>
    decreases |rules|
  {
    if rules == [] then alerts
    else
      var name := rules[0].name;
      Baselines(if name in r.enabled then alerts[name := Baseline(r.judge(name), r.now)] else alerts, rules[1..], r)
  }

  /** Both ends after the sampling half of a step: the first one takes baselines and announces. */
  function Observe(s: System, evaluated: bool, rules: seq<AlertInfo>, r: Round, announced: Passage): System {
    if evaluated then Evaluate(s, rules, r)
    else System(Baselines(s.alerts, rules, r), s.unpaired || announced == UnknownNode, s.sent)
  }

  /** Both ends after a whole step. The heartbeat of an unpaired daemon is not sent, so its reply changes nothing. */
  function Stepped(s: System, evaluated: bool, rules: seq<AlertInfo>, r: Round, announced: Passage, heartbeat: Reply): System {
    var seen := Observe(s, evaluated, rules, r, announced);
    seen.(unpaired := seen.unpaired || heartbeat == Unpaired)
  }

  // --- the daemon -----------------------------------------------------------------

  /** The relay end of one pairing, as far as this node's alerts go. */
  class Relay {
    var sent: map<string, SentRec>

    constructor ()
      ensures sent == map[]
    {
      sent := map[];
    }

    /** POST /v1/alert over the channel. */
    method Alert(name: string, state: State, p: Passage) returns (reply: Reply)
      modifies this
      ensures reply == Exchange(Find(old(sent), name), state, p).0
      ensures sent == Store(old(sent), name, Exchange(Find(old(sent), name), state, p).1)
    {
      match p
      case Refused =>
        reply := Failed;
      case UnknownNode =>
        reply := Unpaired;
      case Handled(relayNow, muted, sendOk, replied) =>
        var d := Deliver(Find(sent, name), Post(state, relayNow, muted, sendOk));
        if d.record.Some? {
          sent := sent[name := d.record.value];
        }
        reply := if d.accepted && replied then Accepted else Failed;
    }
  }

  class Daemon {
    var relay: Relay
    var history: Samples
    var alerts: map<string, AlertState>
    var unpaired: bool
    var evaluated: bool
    var lastSample: Time
    var lastHeartbeatOk: Time

    constructor (relay: Relay)
      ensures this.relay == relay
      ensures history == [] && alerts == map[] && !unpaired && !evaluated
    {
      this.relay := relay;
      history, alerts, unpaired, evaluated := [], map[], false, false;
      lastSample, lastHeartbeatOk := ZERO_TIME, ZERO_TIME;
    }

    function State(): System
      reads this, relay
    {
      System(alerts, unpaired, relay.sent)
    }

    /** Post an alert; true when the relay accepted it. */
    method Send(name: string, state: AlertProto.State, p: Passage) returns (ok: bool)
      modifies this`unpaired, relay
      ensures var (reply, record) := Exchange(Find(old(relay.sent), name), state, if old(unpaired) then Refused else p);
              && ok == (reply == Accepted)
              && unpaired == (old(unpaired) || reply == Unpaired)
              && relay.sent == Store(old(relay.sent), name, record)
    {
      if unpaired {
        return false;
      }
      var reply := relay.Alert(name, state, p);
      if reply == Unpaired {
        unpaired := true;
      }
      ok := reply == Accepted;
    }

    /** One rule: move its record to the verdict and report it when due. */
    method EvaluateRule(rule: AlertInfo, r: Round)
      modifies this`alerts, this`unpaired, relay
      ensures State() == RuleStep(old(State()), rule, r)
    {
      var name := rule.name;
      if name !in r.enabled {
        alerts := alerts - {name};
        return;
      }
      var res := r.judge(name);
      var prev := if name in alerts then alerts[name] else AlertState(res.firing, true, r.now, ZERO_TIME, "");
      if res.firing != prev.firing {
        prev := AlertState(res.firing, false, r.now, ZERO_TIME, "");
      }
      if res.firing {
        if rule.severity == InfoSev && prev.acked && prev.detail != "" && prev.detail != res.detail {
          prev := prev.(acked := false);
        }
        prev := prev.(detail := res.detail);
      }
      assert prev == Prepare(Find(alerts, name), res, rule.severity, r.now);
      var remind := rule.severity != InfoSev && (prev.lastSent == ZERO_TIME || r.now - prev.lastSent >= REMINDER_EVERY);
      if !prev.acked || (res.firing && remind) {
        var ok := Send(name, if res.firing then Firing else Ok, r.net(name));
        if ok {
          prev := prev.(acked := true, lastSent := r.now);
        }
      }
      alerts := alerts[name := prev];
    }

    method EvaluateAll(rules: seq<AlertInfo>, r: Round)
      modifies this`alerts, this`unpaired, relay
      ensures State() == Evaluate(old(State()), rules, r)
    {
      for i := 0 to |rules|
        invariant Evaluate(old(State()), rules, r) == Evaluate(State(), rules[i..], r)
      {
        assert rules[i..][0] == rules[i] && rules[i..][1..] == rules[i + 1..];
        EvaluateRule(rules[i], r);
      }
      assert rules[|rules|..] == [];
    }

    method TakeBaselines(rules: seq<AlertInfo>, r: Round)
      modifies this`alerts
      ensures alerts == Baselines(old(alerts), rules, r)
    {
      for i := 0 to |rules|
        invariant Baselines(old(alerts), rules, r) == Baselines(alerts, rules[i..], r)
      {
        assert rules[i..][0] == rules[i] && rules[i..][1..] == rules[i + 1..];
        var name := rules[i].name;
        if name in r.enabled {
          alerts := alerts[name := Baseline(r.judge(name), r.now)];
        }
      }
      assert rules[|rules|..] == [];
    }

    /**
     One sample, evaluation and heartbeat cycle. The first one takes baselines
     and announces; the announcement is an info report, which no record keeps.
     */
    method Step(rules: seq<AlertInfo>, r: Round, sample: Sample, announced: Passage, heartbeat: Reply)
      modifies this, relay
      ensures relay == old(relay)
      ensures history == Trimmed(old(history) + [sample], r.now) && lastSample == r.now && evaluated
      ensures State() == Stepped(old(State()), old(evaluated), rules, r, announced, heartbeat)
      ensures var paired := !Observe(old(State()), old(evaluated), rules, r, announced).unpaired;
              lastHeartbeatOk == if paired && heartbeat == Accepted then r.now else old(lastHeartbeatOk)
    {
      history := TrimHistory(history + [sample], r.now);
      lastSample := r.now;
      if !evaluated {
        TakeBaselines(rules, r);
        evaluated := true;
        var _ := Send("started", Info, announced);
      } else {
        EvaluateAll(rules, r);
      }
      Heartbeat(r.now, heartbeat);
    }

    /** Report liveness, unless unpaired; the reply may be the unpaired verdict. */
    method Heartbeat(now: Time, reply: Reply)
      modifies this`unpaired, this`lastHeartbeatOk
      ensures unpaired == (old(unpaired) || reply == Unpaired)
      ensures lastHeartbeatOk == if !old(unpaired) && reply == Accepted then now else old(lastHeartbeatOk)
    {
      if unpaired {
        return;
      }
      if reply == Unpaired {
        unpaired := true;
      } else if reply == Accepted {
        lastHeartbeatOk := now;
      }
    }

    /**
     Install a reloaded configuration. New credentials mean another relay
     pairing: the unpaired verdict is dropped, the alert records stay.
     */
    method Apply(next: Relay, credentialsChanged: bool)
      modifies this`relay, this`unpaired
      ensures relay == (if credentialsChanged then next else old(relay))
      ensures unpaired == (old(unpaired) && !credentialsChanged)
    {
      if credentialsChanged {
        relay := next;
        unpaired := false;
      }
    }
  }
}
