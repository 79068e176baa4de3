/**
 The daemon against the relay's own request handling: the channel the daemon
 is proved against is what the whole server does, so agreement holds end to
 end, with every other node, tick and chat command in between.
 */
module EndToEnd {
  import opened Common
  import opened AlertProto
  import opened Delivery
  import opened AlertDaemon
  import P = Protocol
  import S = RelayServer
  import R = RelayStore

  // --- one request --------------------------------------------------------------

  /** What the daemon's client makes of a response. */
  function ReplyOf(response: S.Response): Reply {
    match response
    case NoContent => Accepted
    case UnknownNode => Unpaired
    case _ => Failed
  }

  /** The fate of an alert report, as the server decides it. */
  function PassageOf(s: S.RelayState, c: S.Caller, report: Report, now: Time, recovery: S.Telegram, tg: S.Telegram): Passage {
    var (s1, gate) := S.Authed(s, c, now, recovery);
    match gate
    case Shut(response) => if response == S.UnknownNode then UnknownNode else Refused
    case Open(n) =>
      if !ValidAlert(report) then Refused
      else Handled(now, R.MutedIn(s1.mutes, n.id, report.alert, now), S.Notify(s1, n, now, tg).1, true)
  }

  lemma RecoverKeepsRecord(s: S.RelayState, before: R.Node, now: Time, tg: S.Telegram, id: string, alert: string)
    requires R.NulFree(before.id) && R.NulFree(id) && alert != NODE_SILENT
    ensures var (s1, gate) := S.Recover(s, before, now, tg);
            S.SentRecord(s1, id, alert) == S.SentRecord(s, id, alert) && gate.Open? && gate.caller.id == before.id
  {
    var n := before.(lastSeen := now, silent := false);
    S.DeliverAlertIsDeliver(S.PutNode(s, n), n, NODE_SILENT, Ok, now, tg);
  }

  /** Authentication and recovery touch no record but node_silent's. */
  lemma AuthedKeepsRecord(s: S.RelayState, c: S.Caller, now: Time, tg: S.Telegram, id: string, alert: string)
    requires S.SilenceAgrees(s) && R.NulFree(id) && alert != NODE_SILENT
    ensures var (s1, gate) := S.Authed(s, c, now, tg);
            && S.SentRecord(s1, id, alert) == S.SentRecord(s, id, alert)
            && (gate.Open? ==> gate.caller.id == c.id && R.NulFree(c.id))
  {
    if c.id in s.nodes {
      assert S.Tied(s, c.id);
      var s1 := s.(admit := S.L.Admit(S.ADMIT_RATE, s.admit, c.ip, now).0);
      var s2 := s1.(node := S.L.Admit(S.NODE_RATE, s1.node, c.id, now).0);
      RecoverKeepsRecord(s2, s.nodes[c.id], now, tg, id, alert);
    }
  }

  /** A shut gate is a refusal without a delivery. */
  lemma ShutAnswers(s: S.RelayState, c: S.Caller, now: Time, tg: S.Telegram)
    ensures var gate := S.Authed(s, c, now, tg).1;
            gate.Shut? ==> gate.response != S.NoContent
  {
  }

  lemma HandleIsExchange(s: S.RelayState, n: R.Node, report: Report, now: Time, tg: S.Telegram)
    requires R.NulFree(n.id) && report.state != Info && ValidAlert(report)
    ensures var (s1, response) := S.Handle(s, n, S.Alert(report), now, tg);
            (ReplyOf(response), S.SentRecord(s1, n.id, report.alert))
              == Exchange(S.SentRecord(s, n.id, report.alert), report.state,
                          Handled(now, R.MutedIn(s.mutes, n.id, report.alert, now), S.Notify(s, n, now, tg).1, true))
  {
    S.DeliverAlertIsDeliver(s, n, report.alert, report.state, now, tg);
  }

  /**
   A report that reaches the server is answered and recorded exactly as the
   daemon's channel says: the server's limits, authentication, recovery and
   mutes only choose which passage the request takes.
   */
  lemma ServeIsExchange(s: S.RelayState, c: S.Caller, report: Report, now: Time, recovery: S.Telegram, tg: S.Telegram)
    requires S.SilenceAgrees(s) && R.NulFree(c.id) && report.alert != NODE_SILENT && report.state != Info
    ensures var (s1, response) := S.Serve(s, c, S.Alert(report), now, recovery, tg);
            var p := PassageOf(s, c, report, now, recovery, tg);
            (ReplyOf(response), S.SentRecord(s1, c.id, report.alert))
              == Exchange(S.SentRecord(s, c.id, report.alert), report.state, p)
  {
    AuthedKeepsRecord(s, c, now, recovery, c.id, report.alert);
    var (s1, gate) := S.Authed(s, c, now, recovery);
    match gate
    case Shut(response) =>
      ShutAnswers(s, c, now, recovery);
    case Open(n) =>
      if ValidAlert(report) {
        HandleIsExchange(s1, n, report, now, tg);
      }
  }

  /** A request that does not end the pairing and does not report `alert`, unless as an info message. */
  predicate Spares(req: S.Request, alert: string) {
    !req.Unpair? && (req.Alert? ==> req.report.alert != alert || req.report.state == Info)
  }

  lemma HandleKeepsRecord(s: S.RelayState, n: R.Node, req: S.Request, now: Time, tg: S.Telegram, id: string, alert: string)
    requires R.NulFree(n.id) && R.NulFree(id)
    requires n.id == id ==> Spares(req, alert)
    ensures S.SentRecord(S.Handle(s, n, req, now, tg).0, id, alert) == S.SentRecord(s, id, alert)
  {
    match req
    case Alert(r) =>
      S.DeliverAlertIsDeliver(s, n, r.alert, r.state, now, tg);
    case Heartbeat(_) =>
    case Unpair =>
      R.UnderIdExact(id, alert, n.id);
  }

  /** A request leaves alone every record it does not report, but node_silent's; an info message leaves all of them. */
  lemma ServeKeepsRecord(s: S.RelayState, c: S.Caller, req: S.Request, now: Time, recovery: S.Telegram, tg: S.Telegram,
                         id: string, alert: string)
    requires S.SilenceAgrees(s) && R.NulFree(id) && alert != NODE_SILENT
    requires c.id == id ==> Spares(req, alert)
    ensures S.SentRecord(S.Serve(s, c, req, now, recovery, tg).0, id, alert) == S.SentRecord(s, id, alert)
  {
    AuthedKeepsRecord(s, c, now, recovery, id, alert);
    var (s1, gate) := S.Authed(s, c, now, recovery);
    if gate.Open? {
      HandleKeepsRecord(s1, gate.caller, req, now, tg, id, alert);
    }
  }

  lemma {:induction false} TickKeepsRecord(s: S.RelayState, listed: seq<R.Node>, now: Time, tg: string -> S.Telegram, id: string, alert: string)
    requires R.NulFree(id) && alert != NODE_SILENT && forall i | 0 <= i < |listed| :: R.NulFree(listed[i].id)
    ensures S.SentRecord(S.CheckSilent(s, listed, now, tg), id, alert) == S.SentRecord(s, id, alert)
    decreases |listed|
  {
    if listed != [] {
      var n := listed[0];
      S.DeliverAlertIsDeliver(s, n, NODE_SILENT, Firing, now, tg(n.id));
      TickKeepsRecord(S.RaiseSilence(s, n, now, tg(n.id)), listed[1..], now, tg, id, alert);
    }
  }

  // --- whole runs -------------------------------------------------------------------

  /** One node's daemon and the whole relay. */
  datatype Joint = Joint(alerts: map<string, AlertState>, unpaired: bool, relay: S.RelayState)

  /** A request is lost on the way, or reaches the server; then its reply may still be lost. */
  datatype Fate = Lost | Reaches(caller: S.Caller, now: Time, recovery: S.Telegram, tg: S.Telegram, replied: bool)

  /**
   The daemon evaluates or drops one rule, sends a heartbeat, or starts
   again, with baselines and an announcement; or anything else happens at
   the relay.
   */
  datatype JointEvent =
    | RuleTurn(rule: AlertInfo, v: Verdict, now: Time, titleLen: nat, detailLen: nat, fate: Fate)
    | RuleDisabled(name: string)
    | HeartbeatSent(summary: string, fate: Fate)
    | DaemonRestarted(alerts: map<string, AlertState>, announcement: Report, fate: Fate)
    | AtRelay(e: S.Event)

  /** The reply and the relay after one attempt to send a request. */
  function Attempt(relay: S.RelayState, req: S.Request, fate: Fate): (Reply, S.RelayState) {
    match fate
    case Lost => (Failed, relay)
    case Reaches(caller, now, recovery, tg, replied) =>
      var (relay1, response) := S.Serve(relay, caller, req, now, recovery, tg);
      (if replied then ReplyOf(response) else Failed, relay1)
  }

  function Next(j: Joint, e: JointEvent): Joint {
    match e
    case RuleTurn(rule, v, now, titleLen, detailLen, fate) =>
      var entry := Prepare(Find(j.alerts, rule.name), v, rule.severity, now);
      if NeedSend(entry, v, rule.severity, now) && !j.unpaired then
        var report := Report(rule.name, Reported(v), rule.severity, titleLen, detailLen);
        var (reply, relay) := Attempt(j.relay, S.Alert(report), fate);
        Joint(j.alerts[rule.name := if reply == Accepted then entry.(acked := true, lastSent := now) else entry],
              reply == Unpaired, relay)
      else j.(alerts := j.alerts[rule.name := entry])
    case RuleDisabled(name) => j.(alerts := j.alerts - {name})
    case HeartbeatSent(summary, fate) =>
      if j.unpaired then j
      else
        var (reply, relay) := Attempt(j.relay, S.Heartbeat(summary), fate);
        j.(unpaired := reply == Unpaired, relay := relay)
    case DaemonRestarted(alerts, announcement, fate) =>
      var (reply, relay) := Attempt(j.relay, S.Alert(announcement), fate);
      Joint(alerts, reply == Unpaired, relay)
    case AtRelay(e) => j.(relay := S.Next(j.relay, e))
  }

  ghost predicate FromNode(fate: Fate, id: string) {
    fate.Reaches? ==> fate.caller.id == id
  }

  /**
   What can happen while the pairing of node `id` lasts: the daemon reports
   its own rules and sends heartbeats under its id, and restarts with
   baselines and the "started" message; the relay serves anything proper,
   except firing and ok reports under this id from elsewhere and the end of
   this pairing.
   */
  ghost predicate WhilePaired(j: Joint, id: string, e: JointEvent, silentAfter: Duration) {
    match e
    case RuleTurn(rule, _, _, _, _, fate) => rule.name != NODE_SILENT && FromNode(fate, id)
    case RuleDisabled(_) => true
    case HeartbeatSent(_, fate) => FromNode(fate, id)
    case DaemonRestarted(alerts, announcement, fate) =>
      && FromNode(fate, id) && announcement.alert == "started" && announcement.state == Info
      && forall name | name in alerts :: alerts[name].lastSent == ZERO_TIME && name != NODE_SILENT
    case AtRelay(e) =>
      && S.Proper(j.relay, e, silentAfter)
      && (e.Requested? && e.caller.id == id ==> e.req.Heartbeat? || (e.req.Alert? && e.req.report.state == Info))
      && (e.ChatUnpaired? ==> e.id != id && R.NulFree(e.id))
  }

  function LinkOf(j: Joint, id: string, name: string): Link {
    Link(Find(j.alerts, name), S.SentRecord(j.relay, id, name))
  }

  ghost predicate NameGood(j: Joint, id: string, name: string) {
    if name == NODE_SILENT then name !in j.alerts
    else P.AgreesOn(LinkOf(j, id, name)) && Plain(S.SentRecord(j.relay, id, name))
  }

  ghost predicate Good(j: Joint, id: string) {
    && R.NulFree(id) && S.SilenceAgrees(j.relay)
    && forall name :: NameGood(j, id, name)
  }

  /** One attempt is one passage of the daemon's channel, on this alert's record alone. */
  lemma AttemptIsExchange(relay: S.RelayState, id: string, report: Report, fate: Fate) returns (p: Passage)
    requires S.SilenceAgrees(relay) && R.NulFree(id) && report.alert != NODE_SILENT && report.state != Info && FromNode(fate, id)
    ensures var (reply, relay1) := Attempt(relay, S.Alert(report), fate);
            var (answer, record) := Exchange(S.SentRecord(relay, id, report.alert), report.state, p);
            && record == S.SentRecord(relay1, id, report.alert)
            && (reply == Accepted ==> answer == Accepted)
            && S.SilenceAgrees(relay1)
            && forall name | name != report.alert && name != NODE_SILENT ::
                 S.SentRecord(relay1, id, name) == S.SentRecord(relay, id, name)
  {
    match fate
    case Lost => p := Refused;
    case Reaches(caller, now, recovery, tg, _) =>
      p := PassageOf(relay, caller, report, now, recovery, tg);
      ServeIsExchange(relay, caller, report, now, recovery, tg);
      S.NextKeepsTied(relay, S.Requested(caller, S.Alert(report), now, recovery, tg), 0);
      forall name | name != report.alert && name != NODE_SILENT
        ensures S.SentRecord(Attempt(relay, S.Alert(report), fate).1, id, name) == S.SentRecord(relay, id, name)
      {
        ServeKeepsRecord(relay, caller, S.Alert(report), now, recovery, tg, id, name);
      }
  }

  lemma RuleTurnGood(j: Joint, id: string, rule: AlertInfo, v: Verdict, now: Time, titleLen: nat, detailLen: nat, fate: Fate)
    requires Good(j, id) && rule.name != NODE_SILENT && FromNode(fate, id)
    ensures Good(Next(j, RuleTurn(rule, v, now, titleLen, detailLen, fate)), id)
  {
    var j1 := Next(j, RuleTurn(rule, v, now, titleLen, detailLen, fate));
    var p := AttemptIsExchange(j.relay, id, Report(rule.name, Reported(v), rule.severity, titleLen, detailLen), fate);
    assert NameGood(j, id, rule.name);
    forall name ensures NameGood(j1, id, name) {
      assert NameGood(j, id, name);
      if name == rule.name {
        TurnSettles(LinkOf(j, id, name), LinkOf(j1, id, name), v, rule.severity, now, p);
      }
    }
  }

  /** A heartbeat, an announcement or another info message under this id changes no record but node_silent's. */
  lemma AttemptKeepsRecords(relay: S.RelayState, id: string, req: S.Request, fate: Fate)
    requires S.SilenceAgrees(relay) && R.NulFree(id) && FromNode(fate, id)
    requires req.Heartbeat? || (req.Alert? && req.report.state == Info && req.report.alert != NODE_SILENT)
    ensures var relay1 := Attempt(relay, req, fate).1;
            && S.SilenceAgrees(relay1)
            && forall name | name != NODE_SILENT :: S.SentRecord(relay1, id, name) == S.SentRecord(relay, id, name)
  {
    if fate.Reaches? {
      S.NextKeepsTied(relay, S.Requested(fate.caller, req, fate.now, fate.recovery, fate.tg), 0);
      forall name | name != NODE_SILENT
        ensures S.SentRecord(Attempt(relay, req, fate).1, id, name) == S.SentRecord(relay, id, name)
      {
        ServeKeepsRecord(relay, fate.caller, req, fate.now, fate.recovery, fate.tg, id, name);
      }
    }
  }

  /** The joint step on one alert is a turn, possibly one whose accepted reply was lost. */
  lemma TurnSettles(l: Link, l1: Link, v: Verdict, severity: Severity, now: Time, p: Passage)
    requires P.AgreesOn(l) && Plain(l.record)
    requires var e := Prepare(l.entry, v, severity, now);
             var (reply, record) := Exchange(l.record, Reported(v), p);
             || l1 == Link(Some(e), l.record)
             || l1 == Link(Some(e), record)
             || (reply == Accepted && l1 == Link(Some(e.(acked := true, lastSent := now)), record))
    ensures P.AgreesOn(l1) && Plain(l1.record)
  {
  }

  lemma AtRelayKeepsRecord(j: Joint, id: string, e: S.Event, silentAfter: Duration, name: string)
    requires Good(j, id) && WhilePaired(j, id, AtRelay(e), silentAfter) && name != NODE_SILENT
    ensures S.SentRecord(S.Next(j.relay, e), id, name) == S.SentRecord(j.relay, id, name)
  {
    match e
    case Requested(c, req, now, recovery, tg) =>
      ServeKeepsRecord(j.relay, c, req, now, recovery, tg, id, name);
    case Ticked(listed, now, fates) =>
      forall i | 0 <= i < |listed| ensures R.NulFree(listed[i].id) {
        assert S.Tied(j.relay, listed[i].id);
      }
      TickKeepsRecord(j.relay, listed, now, fates, id, name);
    case ChatUnpaired(other) =>
      R.UnderIdExact(id, name, other);
    case _ =>
  }

  lemma NextGood(j: Joint, id: string, e: JointEvent, silentAfter: Duration)
    requires Good(j, id) && WhilePaired(j, id, e, silentAfter)
    ensures Good(Next(j, e), id)
  {
    match e
    case RuleTurn(rule, v, now, titleLen, detailLen, fate) =>
      RuleTurnGood(j, id, rule, v, now, titleLen, detailLen, fate);
    case HeartbeatSent(summary, fate) =>
      AttemptKeepsRecords(j.relay, id, S.Heartbeat(summary), fate);
      forall name ensures NameGood(Next(j, e), id, name) {
        assert NameGood(j, id, name);
      }
    case DaemonRestarted(alerts, announcement, fate) =>
      assert announcement.alert != NODE_SILENT by { assert |NODE_SILENT| == 11; }
      AttemptKeepsRecords(j.relay, id, S.Alert(announcement), fate);
      forall name ensures NameGood(Next(j, e), id, name) {
        assert NameGood(j, id, name);
      }
    case AtRelay(r) =>
      S.NextKeepsTied(j.relay, r, silentAfter);
      forall name ensures NameGood(Next(j, e), id, name) {
        assert NameGood(j, id, name);
        if name != NODE_SILENT {
          AtRelayKeepsRecord(j, id, r, silentAfter, name);
        }
      }
    case _ =>
      forall name ensures NameGood(Next(j, e), id, name) {
        assert NameGood(j, id, name);
      }
  }

  ghost predicate PairedRun(j: Joint, id: string, events: seq<JointEvent>, silentAfter: Duration)
    decreases |events|
  {
    events != [] ==> WhilePaired(j, id, events[0], silentAfter) && PairedRun(Next(j, events[0]), id, events[1..], silentAfter)
  }

  function Run(j: Joint, events: seq<JointEvent>): Joint
    decreases |events|
  {
    if events == [] then j else Run(Next(j, events[0]), events[1..])
  }

  /** A daemon that has accepted nothing yet starts out good, whatever the relay recorded before. */
  lemma FreshDaemonIsGood(j: Joint, id: string)
    requires R.NulFree(id) && S.SilenceAgrees(j.relay)
    requires NODE_SILENT !in j.alerts && forall name | name in j.alerts :: j.alerts[name].lastSent == ZERO_TIME
    requires forall name | name != NODE_SILENT :: Plain(S.SentRecord(j.relay, id, name))
    ensures Good(j, id)
  {
    forall name ensures NameGood(j, id, name) {
    }
  }

  /**
   End to end: however the daemon's reports, heartbeats, restarts and
   announcements interleave with everything else the relay serves, an entry
   of this node's daemon that the relay accepted is firing exactly when the
   relay's stored record for it is, and the silence flags of all nodes still
   match their records.
   */
  lemma {:induction false} AgreementEndToEnd(j: Joint, id: string, events: seq<JointEvent>, silentAfter: Duration)
    requires Good(j, id) && PairedRun(j, id, events, silentAfter)
    ensures Good(Run(j, events), id)
    decreases |events|
  {
    if events != [] {
      NextGood(j, id, events[0], silentAfter);
      AgreementEndToEnd(Next(j, events[0]), id, events[1..], silentAfter);
    }
  }
}
