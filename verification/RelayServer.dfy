/**
 The relay's request handling: admission and authentication with silence
 recovery, delivery to the chat, the silence check, and the chat commands
 that touch the same state.
 */
module RelayServer {
  import opened Common
  import opened AlertProto
  import opened Delivery
  import opened RelayStore
  import opened Decimal
  import L = RateLimiter

  const NODE_RATE := 60
  const ADMIT_RATE := 120
  const CHAT_RATE := 20

  /** How a message to the chat fares. */
  datatype Telegram = Sent | ChatBlocked | SendFailed

  /** A request as it arrives: its address, claimed node, and whether body size and signature check out. */
  datatype Caller = Caller(ip: string, id: string, bodyOk: bool, proven: bool)

  datatype Request = Alert(report: Report) | Heartbeat(summary: string) | Unpair

  datatype Response = NoContent | BadRequest | Unauthorized | UnknownNode | TooLarge | RateLimited | DeliveryFailed | StoreError

  /** Everything the relay's decisions read: the store's maps and the three limiters requests pass. */
  datatype RelayState = RelayState(
    nodes: map<string, Node>, mutes: map<string, Time>, sent: map<string, SentRec>,
    admit: L.LimiterState, node: L.LimiterState, chat: L.LimiterState)

  function SentRecord(s: RelayState, id: string, alert: string): Option<SentRec> {
    Find(s.sent, Key(id, alert))
  }

  function PutNode(s: RelayState, n: Node): RelayState {
    if n.id in s.nodes then s.(nodes := s.nodes[n.id := n]) else s
  }

  function PutRecord(s: RelayState, id: string, alert: string, state: State, at: Time): RelayState {
    s.(sent := FlatOp(s.sent, Put(id, alert, SentRec(state, at))))
  }

  /** Send to the node's chat, under the chat's rate limit. */
  function Notify(s: RelayState, n: Node, now: Time, tg: Telegram): (RelayState, bool) {
    if n.blocked then (s, false)
    else
      var (chat, a) := L.Admit(CHAT_RATE, s.chat, Itoa(n.chatID), now);
      var s1 := s.(chat := chat);
      if a != L.Admitted then (s1, false)
      else if tg == ChatBlocked then (PutNode(s1, n.(blocked := true)), false)
      else (s1, tg == Sent)
  }

  function DeliverAlert(s: RelayState, n: Node, alert: string, state: State, now: Time, tg: Telegram): (RelayState, bool) {
    if state == Info then Notify(s, n, now, tg)
    else if !IsNews(SentRecord(s, n.id, alert), state, now) then (s, true)
    else if MutedIn(s.mutes, n.id, alert, now) then (PutRecord(s, n.id, alert, state, now), true)
    else
      var (s1, ok) := Notify(s, n, now, tg);
      (if ok then PutRecord(s1, n.id, alert, state, now) else s1, ok)
  }

  datatype Gate = Shut(response: Response) | Open(caller: Node)

  /** Admission, authentication and, for a node that was silent, its recovery. */
  function Authed(s: RelayState, c: Caller, now: Time, tg: Telegram): (RelayState, Gate) {
    var (admit, a) := L.Admit(ADMIT_RATE, s.admit, c.ip, now);
    var s1 := s.(admit := admit);
    if a != L.Admitted then (s1, Shut(RateLimited))
    else if !ValidNodeId(c.id) then (s1, Shut(Unauthorized))
    else if !c.bodyOk then (s1, Shut(TooLarge))
    else if c.id !in s1.nodes then (s1, Shut(UnknownNode))
    else if !c.proven then (s1, Shut(Unauthorized))
    else
      var (node, b) := L.Admit(NODE_RATE, s1.node, c.id, now);
      var s2 := s1.(node := node);
      if b != L.Admitted then (s2, Shut(RateLimited))
      else Recover(s2, s2.nodes[c.id], now, tg)
  }

  /** Mark the node seen; when it was silent, deliver the recovery or flag it again. */
  function Recover(s: RelayState, before: Node, now: Time, tg: Telegram): (RelayState, Gate) {
    var n := before.(lastSeen := now, silent := false);
    var s1 := PutNode(s, n);
    if !before.silent then (s1, Open(n))
    else
      var (s2, ok) := DeliverAlert(s1, n, NODE_SILENT, Ok, now, tg);
      if ok then (s2, Open(n))
      else (PutNode(s2, n.(silent := true)), Open(n.(silent := true)))
  }

  function DropNode(s: RelayState, id: string): RelayState {
    if id in s.nodes
    then s.(nodes := s.nodes - {id}, mutes := WithoutId(s.mutes, id), sent := WithoutId(s.sent, id))
    else s
  }

  function Handle(s: RelayState, n: Node, req: Request, now: Time, tg: Telegram): (RelayState, Response) {
    match req
    case Alert(r) =>
      if !ValidAlert(r) then (s, BadRequest)
      else
        var (s1, ok) := DeliverAlert(s, n, r.alert, r.state, now, tg);
        (s1, if ok then NoContent else DeliveryFailed)
    case Heartbeat(summary) =>
      if n.id in s.nodes then (PutNode(s, n.(summary := summary)), NoContent) else (s, StoreError)
    case Unpair =>
      (Notify(DropNode(s, n.id), n, now, tg).0, NoContent)
  }

  /** One authenticated request; `recovery` and `tg` are the fates of the messages it may send. */
  function Serve(s: RelayState, c: Caller, req: Request, now: Time, recovery: Telegram, tg: Telegram): (RelayState, Response) {
    var (s1, gate) := Authed(s, c, now, recovery);
    match gate
    case Shut(response) => (s1, response)
    case Open(n) => Handle(s1, n, req, now, tg)
  }

  /** Raise node_silent for one candidate, as it was when the tick listed it. */
  function RaiseSilence(s: RelayState, n: Node, now: Time, tg: Telegram): RelayState {
    var (s1, ok) := DeliverAlert(s, n, NODE_SILENT, Firing, now, tg);
    if ok then PutNode(s1, n.(silent := true)) else s1
  }

  function CheckSilent(s: RelayState, listed: seq<Node>, now: Time, tg: string -> Telegram): RelayState
    decreases |listed|
  {
    if listed == [] then s
    else CheckSilent(RaiseSilence(s, listed[0], now, tg(listed[0].id)), listed[1..], now, tg)
  }

  // --- what a caller may expect ------------------------------------------------------

  predicate AddressHasCalls(s: RelayState, c: Caller, now: Time) {
    L.Admit(ADMIT_RATE, s.admit, c.ip, now).1 == L.Admitted
  }

  predicate NodeHasCalls(s: RelayState, c: Caller, now: Time) {
    L.Admit(NODE_RATE, s.node, c.id, now).1 == L.Admitted
  }

  /** A known node's request, in form, signed, and within its address's rate. */
  predicate Credible(s: RelayState, c: Caller, now: Time) {
    AddressHasCalls(s, c, now) && ValidNodeId(c.id) && c.bodyOk && c.id in s.nodes && c.proven
  }

  /** The refusal a caller that is not credible gets: the first thing wrong decides. */
  ghost predicate IsRefusal(s: RelayState, c: Caller, now: Time, response: Response) {
    && (!AddressHasCalls(s, c, now) ==> response == RateLimited)
    && (AddressHasCalls(s, c, now) ==>
          && (!ValidNodeId(c.id) ==> response == Unauthorized)
          && (ValidNodeId(c.id) && !c.bodyOk ==> response == TooLarge)
          && (ValidNodeId(c.id) && c.bodyOk && c.id !in s.nodes ==> response == UnknownNode)
          && (ValidNodeId(c.id) && c.bodyOk && c.id in s.nodes && !c.proven ==> response == Unauthorized))
  }

  /** Does a message to the node's chat get through at `now`? */
  predicate ChatTakes(s: RelayState, n: Node, now: Time, tg: Telegram) {
    && !n.blocked
    && L.Admit(CHAT_RATE, s.chat, Itoa(n.chatID), now).1 == L.Admitted
    && tg == Sent
  }

  /** Is a node_silent message done with: muted, or taken by the chat? */
  predicate Settled(s: RelayState, n: Node, now: Time, tg: Telegram) {
    MutedIn(s.mutes, n.id, NODE_SILENT, now) || ChatTakes(s, n, now, tg)
  }

  /** The chat limiter after a node_silent message of `n` was tried. */
  function ChatTried(s: RelayState, n: Node, now: Time): L.LimiterState {
    if MutedIn(s.mutes, n.id, NODE_SILENT, now) || n.blocked then s.chat
    else L.Admit(CHAT_RATE, s.chat, Itoa(n.chatID), now).0
  }

  /** The chat limiter after the node_silent messages of all of `listed`. */
  function ChatAfter(s: RelayState, listed: seq<Node>, now: Time): L.LimiterState
    decreases |listed|
  {
    if listed == [] then s.chat else ChatAfter(s.(chat := ChatTried(s, listed[0], now)), listed[1..], now)
  }

  /** What a tick makes of the `i`-th node it listed: flagged and recorded firing exactly when its message was done with. */
  ghost predicate RaisedInTurn(s: RelayState, s1: RelayState, listed: seq<Node>, i: nat, now: Time, tg: string -> Telegram)
    requires i < |listed|
  {
    var n := listed[i];
    var raised := Settled(s.(chat := ChatAfter(s, listed[..i], now)), n, now, tg(n.id));
    && n.id in s1.nodes && (s1.nodes[n.id].silent <==> raised)
    && SentRecord(s1, n.id, NODE_SILENT) == if raised then Some(SentRec(Firing, now)) else SentRecord(s, n.id, NODE_SILENT)
  }

  // --- the server ------------------------------------------------------------------

  class Server {
    const store: MemoryStore
    const admitLimit: L.Limiter
    const nodeLimit: L.Limiter
    const chatLimit: L.Limiter
    const silentAfter: Duration

    ghost predicate Valid()
      reads this
    {
      && admitLimit.limit == ADMIT_RATE && nodeLimit.limit == NODE_RATE && chatLimit.limit == CHAT_RATE
      && admitLimit != nodeLimit && admitLimit != chatLimit && nodeLimit != chatLimit
    }

    ghost function Repr(): set<object> {
      {store, admitLimit, nodeLimit, chatLimit}
    }

    function State(): RelayState
      reads store, admitLimit, nodeLimit, chatLimit
    {
      RelayState(store.nodes, store.mutes, store.lastSent, admitLimit.State(), nodeLimit.State(), chatLimit.State())
    }

    constructor (store: MemoryStore, silentAfter: Duration)
      ensures this.store == store && this.silentAfter == silentAfter && Valid()
      ensures fresh(Repr() - {store})
    {
      this.store, this.silentAfter := store, silentAfter;
      admitLimit := new L.Limiter(ADMIT_RATE);
      nodeLimit := new L.Limiter(NODE_RATE);
      chatLimit := new L.Limiter(CHAT_RATE);
    }

    method NotifyChat(n: Node, now: Time, tg: Telegram) returns (ok: bool)
      requires Valid() && now - ZERO_TIME >= MINUTE
      modifies store`nodes, chatLimit
      ensures (State(), ok) == Notify(old(State()), n, now, tg)
    {
      if n.blocked {
        return false;
      }
      var allowed := chatLimit.Allow(Itoa(n.chatID), now);
      if !allowed {
        return false;
      }
      if tg == ChatBlocked {
        var _ := store.UpdateNode(n.(blocked := true));
      }
      return tg == Sent;
    }

    method DeliverReport(n: Node, alert: string, state: AlertProto.State, now: Time, tg: Telegram) returns (ok: bool)
      requires Valid() && now - ZERO_TIME >= MINUTE
      modifies store`nodes, store`lastSent, chatLimit
      ensures (State(), ok) == DeliverAlert(old(State()), n, alert, state, now, tg)
    {
      if state == Info {
        ok := NotifyChat(n, now, tg);
        return;
      }
      var last := store.LastSent(n.id, alert);
      var repeated := last.Some? && last.value.state == state;
      if repeated && state == Ok {
        return true;
      }
      if repeated && now - last.value.at < REMINDER_EVERY {
        return true;
      }
      if state == Ok && last.None? {
        return true;
      }
      var muted := store.Muted(n.id, alert, now);
      if !muted {
        var sent := NotifyChat(n, now, tg);
        if !sent {
          return false;
        }
      }
      store.SetLastSent(n.id, alert, state, now);
      return true;
    }

    method Authenticate(c: Caller, now: Time, tg: Telegram) returns (gate: Gate)
      requires Valid() && now - ZERO_TIME >= MINUTE
      requires forall id | id in store.nodes :: store.nodes[id].id == id
      modifies store`nodes, store`lastSent, admitLimit, nodeLimit, chatLimit
      ensures (State(), gate) == Authed(old(State()), c, now, tg)
    {
      var admitted := admitLimit.Allow(c.ip, now);
      if !admitted {
        return Shut(RateLimited);
      }
      if !ValidNodeId(c.id) {
        return Shut(Unauthorized);
      }
      if !c.bodyOk {
        return Shut(TooLarge);
      }
      if c.id !in store.nodes {
        return Shut(UnknownNode);
      }
      var n := store.nodes[c.id];
      if !c.proven {
        return Shut(Unauthorized);
      }
      var allowed := nodeLimit.Allow(n.id, now);
      if !allowed {
        return Shut(RateLimited);
      }
      gate := RecoverNode(n, now, tg);
    }

    method RecoverNode(before: Node, now: Time, tg: Telegram) returns (gate: Gate)
      requires Valid() && now - ZERO_TIME >= MINUTE
      modifies store`nodes, store`lastSent, chatLimit
      ensures (State(), gate) == Recover(old(State()), before, now, tg)
    {
      var n := before.(lastSeen := now, silent := false);
      var _ := store.UpdateNode(n);
      if before.silent {
        var ok := DeliverReport(n, NODE_SILENT, Ok, now, tg);
        if !ok {
          n := n.(silent := true);
          var _ := store.UpdateNode(n);
        }
      }
      return Open(n);
    }

    method HandleRequest(n: Node, req: Request, now: Time, tg: Telegram) returns (response: Response)
      requires Valid() && now - ZERO_TIME >= MINUTE
      modifies store, chatLimit
      ensures (State(), response) == Handle(old(State()), n, req, now, tg)
    {
      match req
      case Alert(r) =>
        if !ValidAlert(r) {
          return BadRequest;
        }
        var ok := DeliverReport(n, r.alert, r.state, now, tg);
        return if ok then NoContent else DeliveryFailed;
      case Heartbeat(summary) =>
        var ok := store.UpdateNode(n.(summary := summary));
        return if ok then NoContent else StoreError;
      case Unpair =>
        var _ := store.DeleteNode(n.id);
        assert store.nodes == DropNode(old(State()), n.id).nodes;
        var _ := NotifyChat(n, now, tg);
        return NoContent;
    }

    method ServeRequest(c: Caller, req: Request, now: Time, recovery: Telegram, tg: Telegram) returns (response: Response)
      requires Valid() && now - ZERO_TIME >= MINUTE
      requires forall id | id in store.nodes :: store.nodes[id].id == id
      modifies store, admitLimit, nodeLimit, chatLimit
      ensures (State(), response) == Serve(old(State()), c, req, now, recovery, tg)
      ensures !Credible(old(State()), c, now) ==>
                && IsRefusal(old(State()), c, now, response)
                && store.nodes == old(store.nodes) && store.mutes == old(store.mutes) && store.lastSent == old(store.lastSent)
                && nodeLimit.State() == old(nodeLimit.State()) && chatLimit.State() == old(chatLimit.State())
    {
      if !Credible(State(), c, now) {
        RefusalTouchesNothing(State(), c, req, now, recovery, tg);
      }
      var gate := Authenticate(c, now, recovery);
      match gate
      case Shut(r) => response := r;
      case Open(n) => response := HandleRequest(n, req, now, tg);
    }

    /** One tick of the silence check. */
    method Tick(now: Time, tg: string -> Telegram) returns (ghost listed: seq<Node>)
      requires Valid() && now - ZERO_TIME >= MINUTE
      requires forall id | id in store.nodes :: store.nodes[id].id == id
      modifies store`nodes, store`lastSent, chatLimit
      ensures Candidates(old(store.nodes), now - silentAfter, listed)
      ensures State() == CheckSilent(old(State()), listed, now, tg)
      ensures SilenceAgrees(old(State())) ==>
                forall i | 0 <= i < |listed| :: RaisedInTurn(old(State()), State(), listed, i, now, tg)
    {
      var nodes := store.SilentCandidates(now - silentAfter);
      listed := nodes;
      for i := 0 to |nodes|
        invariant CheckSilent(old(State()), nodes, now, tg) == CheckSilent(State(), nodes[i..], now, tg)
      {
        assert nodes[i..][0] == nodes[i] && nodes[i..][1..] == nodes[i + 1..];
        var n := nodes[i];
        var ok := DeliverReport(n, NODE_SILENT, Firing, now, tg(n.id));
        if ok {
          var _ := store.UpdateNode(n.(silent := true));
        }
      }
      assert nodes[|nodes|..] == [];
      if SilenceAgrees(old(State())) {
        forall i | 0 <= i < |listed| ensures RaisedInTurn(old(State()), State(), listed, i, now, tg) {
          TickRaises(old(State()), listed, now, tg, i);
        }
      }
    }
  }

  // --- delivery against its specification ------------------------------------------

  /**
   Delivery on the whole relay is the single-alert delivery on the record of
   that node and alert, and touches no other record: only the limiter, the
   node's own blocked flag and that one record can change.
   */
  lemma DeliverAlertIsDeliver(s: RelayState, n: Node, alert: string, state: State, now: Time, tg: Telegram)
    requires NulFree(n.id)
    ensures var (s1, ok) := DeliverAlert(s, n, alert, state, now, tg);
            var d := Deliver(SentRecord(s, n.id, alert),
                             Post(state, now, MutedIn(s.mutes, n.id, alert, now), Notify(s, n, now, tg).1));
            && ok == d.accepted && SentRecord(s1, n.id, alert) == d.record
            && (forall id, other | NulFree(id) && (id != n.id || other != alert) ::
                  SentRecord(s1, id, other) == SentRecord(s, id, other))
            && s1.mutes == s.mutes
            && (s1.nodes == s.nodes || s1.nodes == PutNode(s, n.(blocked := true)).nodes)
  {
    var (s1, ok) := DeliverAlert(s, n, alert, state, now, tg);
    forall id, other | NulFree(id) && (id != n.id || other != alert)
      ensures SentRecord(s1, id, other) == SentRecord(s, id, other)
    {
      if Key(id, other) == Key(n.id, alert) {
        KeyInjective(id, other, n.id, alert);
      }
    }
  }

  // --- the silence flag and its record ----------------------------------------------

  /** A stored node is flagged exactly when its node_silent record is firing; nothing is recorded for a stranger. */
  ghost predicate Tied(s: RelayState, id: string) {
    if id in s.nodes then
      && NulFree(id) && s.nodes[id].id == id
      && (s.nodes[id].silent <==> IsFiring(SentRecord(s, id, NODE_SILENT)))
      && Plain(SentRecord(s, id, NODE_SILENT))
    else NulFree(id) ==> SentRecord(s, id, NODE_SILENT).None?
  }

  ghost predicate SilenceAgrees(s: RelayState) {
    forall id :: Tied(s, id)
  }

  lemma DeliverKeepsTied(s: RelayState, n: Node, alert: string, state: State, now: Time, tg: Telegram)
    requires SilenceAgrees(s) && n.id in s.nodes && s.nodes[n.id] == n && alert != NODE_SILENT
    ensures SilenceAgrees(DeliverAlert(s, n, alert, state, now, tg).0)
  {
    assert Tied(s, n.id);
    DeliverAlertIsDeliver(s, n, alert, state, now, tg);
    var s1 := DeliverAlert(s, n, alert, state, now, tg).0;
    forall id ensures Tied(s1, id) {
      assert Tied(s, id);
    }
  }

  /** Delivering node_silent leaves every other node tied, and this one up to its flag. */
  lemma DeliverSilence(s: RelayState, n: Node, state: State, now: Time, tg: Telegram)
    requires NulFree(n.id) && n.id in s.nodes && s.nodes[n.id] == n && state != Info
    requires Plain(SentRecord(s, n.id, NODE_SILENT))
    requires forall id | id != n.id :: Tied(s, id)
    ensures var (s1, ok) := DeliverAlert(s, n, NODE_SILENT, state, now, tg);
            && (forall id | id != n.id :: Tied(s1, id))
            && n.id in s1.nodes && s1.nodes[n.id].(blocked := n.blocked) == n
            && Plain(SentRecord(s1, n.id, NODE_SILENT))
            && (ok ==> s1.nodes == s.nodes && (IsFiring(SentRecord(s1, n.id, NODE_SILENT)) <==> state == Firing))
            && (!ok ==> SentRecord(s1, n.id, NODE_SILENT) == SentRecord(s, n.id, NODE_SILENT))
  {
    DeliverAlertIsDeliver(s, n, NODE_SILENT, state, now, tg);
    var s1 := DeliverAlert(s, n, NODE_SILENT, state, now, tg).0;
    forall id | id != n.id ensures Tied(s1, id) {
      assert Tied(s, id);
    }
  }

  lemma RecoverKeepsTied(s: RelayState, before: Node, now: Time, tg: Telegram)
    requires SilenceAgrees(s) && before.id in s.nodes && s.nodes[before.id] == before
    ensures var (s1, gate) := Recover(s, before, now, tg);
            SilenceAgrees(s1) && gate.Open? && gate.caller.id in s1.nodes && s1.nodes[gate.caller.id] == gate.caller
  {
    assert Tied(s, before.id);
    var n := before.(lastSeen := now, silent := false);
    var s0 := PutNode(s, n);
    forall id | id != n.id ensures Tied(s0, id) {
      assert Tied(s, id);
    }
    if before.silent {
      DeliverSilence(s0, n, Ok, now, tg);
    }
    var s1 := Recover(s, before, now, tg).0;
    forall id ensures Tied(s1, id) {
      if id != n.id {
        assert Tied(DeliverAlert(s0, n, NODE_SILENT, Ok, now, tg).0, id) || !before.silent;
      }
    }
  }

  lemma AuthedKeepsTied(s: RelayState, c: Caller, now: Time, tg: Telegram)
    requires SilenceAgrees(s)
    ensures var (s1, gate) := Authed(s, c, now, tg);
            SilenceAgrees(s1) && (gate.Open? ==> gate.caller.id in s1.nodes && s1.nodes[gate.caller.id] == gate.caller)
  {
    var s1 := s.(admit := L.Admit(ADMIT_RATE, s.admit, c.ip, now).0);
    var s2 := s1.(node := L.Admit(NODE_RATE, s1.node, c.id, now).0);
    forall id ensures Tied(s1, id) && Tied(s2, id) {
      assert Tied(s, id);
    }
    if c.id in s.nodes {
      assert Tied(s, c.id);
      RecoverKeepsTied(s2, s2.nodes[c.id], now, tg);
    }
  }

  lemma DropKeepsTied(s: RelayState, gone: string)
    requires SilenceAgrees(s)
    ensures SilenceAgrees(DropNode(s, gone))
  {
    var s1 := DropNode(s, gone);
    assert Tied(s, gone);
    forall id ensures Tied(s1, id) {
      assert Tied(s, id);
      if gone in s.nodes && NulFree(id) {
        UnderIdExact(id, NODE_SILENT, gone);
      }
    }
  }

  lemma NotifyKeepsTied(s: RelayState, n: Node, now: Time, tg: Telegram)
    requires SilenceAgrees(s) && (n.id in s.nodes ==> s.nodes[n.id] == n)
    ensures SilenceAgrees(Notify(s, n, now, tg).0)
  {
    var s1 := Notify(s, n, now, tg).0;
    forall id ensures Tied(s1, id) {
      assert Tied(s, id);
    }
  }

  lemma HandleKeepsTied(s: RelayState, n: Node, req: Request, now: Time, tg: Telegram)
    requires SilenceAgrees(s) && n.id in s.nodes && s.nodes[n.id] == n
    requires req.Alert? ==> req.report.alert != NODE_SILENT
    ensures SilenceAgrees(Handle(s, n, req, now, tg).0)
  {
    match req
    case Alert(r) =>
      DeliverKeepsTied(s, n, r.alert, r.state, now, tg);
    case Heartbeat(summary) =>
      var s1 := Handle(s, n, req, now, tg).0;
      forall id ensures Tied(s1, id) {
        assert Tied(s, id);
      }
    case Unpair =>
      DropKeepsTied(s, n.id);
      NotifyKeepsTied(DropNode(s, n.id), n, now, tg);
  }

  lemma RaiseKeepsTied(s: RelayState, n: Node, now: Time, tg: Telegram)
    requires SilenceAgrees(s) && n.id in s.nodes && s.nodes[n.id] == n && !n.silent
    ensures SilenceAgrees(RaiseSilence(s, n, now, tg))
    ensures var s1 := RaiseSilence(s, n, now, tg);
            forall id | id in s.nodes && id != n.id :: id in s1.nodes && s1.nodes[id] == s.nodes[id]
  {
    assert Tied(s, n.id);
    forall id | id != n.id ensures Tied(s, id) {
    }
    DeliverSilence(s, n, Firing, now, tg);
    DeliverAlertIsDeliver(s, n, NODE_SILENT, Firing, now, tg);
    var s0, s1 := DeliverAlert(s, n, NODE_SILENT, Firing, now, tg).0, RaiseSilence(s, n, now, tg);
    forall id ensures Tied(s1, id) {
      if id != n.id {
        assert Tied(s0, id);
      }
    }
  }

  lemma {:induction false} CheckSilentKeepsTied(s: RelayState, listed: seq<Node>, now: Time, tg: string -> Telegram)
    requires SilenceAgrees(s)
    requires forall i | 0 <= i < |listed| :: listed[i].id in s.nodes && s.nodes[listed[i].id] == listed[i] && !listed[i].silent
    requires forall i, j | 0 <= i < j < |listed| :: listed[i].id != listed[j].id
    ensures SilenceAgrees(CheckSilent(s, listed, now, tg))
    decreases |listed|
  {
    if listed != [] {
      RaiseKeepsTied(s, listed[0], now, tg(listed[0].id));
      CheckSilentKeepsTied(RaiseSilence(s, listed[0], now, tg(listed[0].id)), listed[1..], now, tg);
    }
  }

  // --- a tick reaches every node it lists --------------------------------------------

  /** Nodes as they are stored, each once, none of them flagged. */
  ghost predicate Listable(s: RelayState, listed: seq<Node>) {
    && (forall i | 0 <= i < |listed| :: listed[i].id in s.nodes && s.nodes[listed[i].id] == listed[i] && !listed[i].silent)
    && (forall i, j | 0 <= i < j < |listed| :: listed[i].id != listed[j].id)
  }

  /** One raise, in full. */
  lemma RaiseExact(s: RelayState, n: Node, now: Time, tg: Telegram)
    requires Tied(s, n.id) && n.id in s.nodes && s.nodes[n.id] == n && !n.silent
    ensures var s1 := RaiseSilence(s, n, now, tg);
            && s1.mutes == s.mutes && s1.chat == ChatTried(s, n, now) && s1.admit == s.admit && s1.node == s.node
            && s1.nodes.Keys == s.nodes.Keys && (s1.nodes[n.id].silent <==> Settled(s, n, now, tg))
            && (forall id | id in s.nodes && id != n.id :: s1.nodes[id] == s.nodes[id])
            && s1.sent == if Settled(s, n, now, tg) then s.sent[Key(n.id, NODE_SILENT) := SentRec(Firing, now)] else s.sent
  {
    assert IsNews(SentRecord(s, n.id, NODE_SILENT), Firing, now);
  }

  lemma {:induction false} ChatAfterReads(s: RelayState, s': RelayState, listed: seq<Node>, now: Time)
    requires s.mutes == s'.mutes && s.chat == s'.chat
    ensures ChatAfter(s, listed, now) == ChatAfter(s', listed, now)
    decreases |listed|
  {
    if listed != [] {
      ChatAfterReads(s.(chat := ChatTried(s, listed[0], now)), s'.(chat := ChatTried(s', listed[0], now)), listed[1..], now);
    }
  }

  lemma ListableNext(s: RelayState, listed: seq<Node>, now: Time, tg: Telegram)
    requires SilenceAgrees(s) && listed != [] && Listable(s, listed)
    ensures var s1 := RaiseSilence(s, listed[0], now, tg); SilenceAgrees(s1) && Listable(s1, listed[1..])
  {
    RaiseKeepsTied(s, listed[0], now, tg);
  }

  /** A tick leaves every node it does not list alone, and its records. */
  lemma {:induction false} TickSpares(s: RelayState, listed: seq<Node>, now: Time, tg: string -> Telegram, id: string)
    requires SilenceAgrees(s) && Listable(s, listed) && forall i | 0 <= i < |listed| :: listed[i].id != id
    ensures var s1 := Next(s, Ticked(listed, now, tg));
            Find(s1.nodes, id) == Find(s.nodes, id) && (NulFree(id) ==> forall alert :: SentRecord(s1, id, alert) == SentRecord(s, id, alert))
    decreases |listed|
  {
    if listed != [] {
      var n := listed[0];
      assert Tied(s, n.id);
      var s1 := RaiseSilence(s, n, now, tg(n.id));
      RaiseExact(s, n, now, tg(n.id));
      ListableNext(s, listed, now, tg(n.id));
      forall alert | NulFree(id) ensures SentRecord(s1, id, alert) == SentRecord(s, id, alert) {
        if Key(id, alert) == Key(n.id, NODE_SILENT) {
          KeyInjective(id, alert, n.id, NODE_SILENT);
        }
      }
      TickSpares(s1, listed[1..], now, tg, id);
    }
  }

  /**
   Every node a tick lists is flagged, and its node_silent recorded firing,
   exactly when at its turn it was muted or its chat took the message.
   */
  lemma {:induction false} TickRaises(s: RelayState, listed: seq<Node>, now: Time, tg: string -> Telegram, i: nat)
    requires SilenceAgrees(s) && Listable(s, listed) && i < |listed|
    ensures RaisedInTurn(s, Next(s, Ticked(listed, now, tg)), listed, i, now, tg)
    decreases |listed|
  {
    var n := listed[0];
    assert Tied(s, n.id) && Tied(s, listed[i].id);
    var s1 := RaiseSilence(s, n, now, tg(n.id));
    RaiseExact(s, n, now, tg(n.id));
    ListableNext(s, listed, now, tg(n.id));
    if i == 0 {
      TickSpares(s1, listed[1..], now, tg, n.id);
    } else {
      TickRaises(s1, listed[1..], now, tg, i - 1);
      assert listed[..i][1..] == listed[1..][..i - 1];
      ChatAfterReads(s.(chat := ChatTried(s, n, now)), s1, listed[..i][1..], now);
      assert Key(listed[i].id, NODE_SILENT) != Key(n.id, NODE_SILENT) by {
        if Key(listed[i].id, NODE_SILENT) == Key(n.id, NODE_SILENT) {
          KeyInjective(listed[i].id, NODE_SILENT, n.id, NODE_SILENT);
        }
      }
    }
  }

  /** A tick counts its messages against their chats, and against nothing else. */
  lemma {:induction false} TickCounts(s: RelayState, listed: seq<Node>, now: Time, tg: string -> Telegram)
    requires SilenceAgrees(s) && Listable(s, listed)
    ensures var s1 := Next(s, Ticked(listed, now, tg));
            s1.chat == ChatAfter(s, listed, now) && s1.mutes == s.mutes && s1.admit == s.admit && s1.node == s.node
    decreases |listed|
  {
    if listed != [] {
      var n := listed[0];
      assert Tied(s, n.id);
      var s1 := RaiseSilence(s, n, now, tg(n.id));
      RaiseExact(s, n, now, tg(n.id));
      ListableNext(s, listed, now, tg(n.id));
      TickCounts(s1, listed[1..], now, tg);
      ChatAfterReads(s.(chat := ChatTried(s, n, now)), s1, listed[1..], now);
    }
  }

  /** How many of `listed` write to the chat `key`. */
  function InChat(listed: seq<Node>, key: string): nat {
    if listed == [] then 0 else (if Itoa(listed[0].chatID) == key then 1 else 0) + InChat(listed[1..], key)
  }

  lemma {:induction false} ChatRoomLeft(s: RelayState, listed: seq<Node>, now: Time, key: string)
    requires |s.chat.counts| + |listed| <= L.LIMITER_MAX_KEYS
    ensures var chat := ChatAfter(s, listed, now);
            && |chat.counts| <= |s.chat.counts| + |listed|
            && L.Used(chat, key, now) <= L.Used(s.chat, key, now) + InChat(listed, key)
    decreases |listed|
  {
    if listed != [] {
      L.OneMoreCall(CHAT_RATE, s.chat, Itoa(listed[0].chatID), now, key);
      ChatRoomLeft(s.(chat := ChatTried(s, listed[0], now)), listed[1..], now, key);
    }
  }

  /**
   So a candidate whose chat answers is shown silent after the tick whenever
   its chat is not blocked and its rate leaves room for the messages listed
   before it.
   */
  lemma {:induction false} TickReaches(s: RelayState, listed: seq<Node>, now: Time, tg: string -> Telegram, i: nat)
    requires SilenceAgrees(s) && Listable(s, listed) && i < |listed|
    requires |s.chat.counts| + |listed| <= L.LIMITER_MAX_KEYS
    requires !listed[i].blocked && tg(listed[i].id) == Sent
    requires L.Used(s.chat, Itoa(listed[i].chatID), now) + InChat(listed[..i], Itoa(listed[i].chatID)) < CHAT_RATE
    ensures var s1 := Next(s, Ticked(listed, now, tg));
            && listed[i].id in s1.nodes && s1.nodes[listed[i].id].silent
            && SentRecord(s1, listed[i].id, NODE_SILENT) == Some(SentRec(Firing, now))
  {
    var n := listed[i];
    TickRaises(s, listed, now, tg, i);
    ChatRoomLeft(s, listed[..i], now, Itoa(n.chatID));
    L.AnswerIff(CHAT_RATE, ChatAfter(s, listed[..i], now), Itoa(n.chatID), now);
  }

  // --- what a request does ------------------------------------------------------------

  /** The state behind the two limiters a credible request passes. */
  function PastLimits(s: RelayState, c: Caller, now: Time): RelayState {
    s.(admit := L.Admit(ADMIT_RATE, s.admit, c.ip, now).0, node := L.Admit(NODE_RATE, s.node, c.id, now).0)
  }

  /** A caller that is not credible changes nothing but its address's count, and learns what was wrong. */
  lemma RefusalTouchesNothing(s: RelayState, c: Caller, req: Request, now: Time, recovery: Telegram, tg: Telegram)
    requires !Credible(s, c, now)
    ensures var (s1, response) := Serve(s, c, req, now, recovery, tg);
            && s1 == s.(admit := L.Admit(ADMIT_RATE, s.admit, c.ip, now).0)
            && IsRefusal(s, c, now, response)
  {
  }

  /** A credible node over its own rate is refused, and only the two counts change. */
  lemma OverNodeRate(s: RelayState, c: Caller, req: Request, now: Time, recovery: Telegram, tg: Telegram)
    requires Credible(s, c, now) && !NodeHasCalls(s, c, now)
    ensures var (s1, response) := Serve(s, c, req, now, recovery, tg);
            s1 == PastLimits(s, c, now) && response == RateLimited
  {
  }

  /** The stored node once a request of it was let in: seen now, and silent only if it was and its recovery failed. */
  function Seen(s: RelayState, id: string, now: Time, recovery: Telegram): Node
    requires id in s.nodes
  {
    var n := s.nodes[id];
    n.(lastSeen := now, silent := n.silent && !Settled(s, n, now, recovery))
  }

  /** The chat limiter the request itself meets, after a recovery message if there was one. */
  function ChatMet(s: RelayState, id: string, now: Time): L.LimiterState
    requires id in s.nodes
  {
    if s.nodes[id].silent then ChatTried(s, s.nodes[id], now) else s.chat
  }

  /** The records once a request was let in: a recovery is recorded when it was done with. */
  function SentMet(s: RelayState, id: string, now: Time, recovery: Telegram): map<string, SentRec>
    requires id in s.nodes
  {
    if s.nodes[id].silent && Settled(s, s.nodes[id], now, recovery) then s.sent[Key(id, NODE_SILENT) := SentRec(Ok, now)] else s.sent
  }

  /** The address and node limiters are the same. */
  ghost predicate SameLimits(s: RelayState, s1: RelayState) {
    s.admit == s1.admit && s.node == s1.node
  }

  lemma RecoverExact(s: RelayState, n: Node, now: Time, recovery: Telegram)
    requires Tied(s, n.id) && n.id in s.nodes && s.nodes[n.id] == n
    ensures var (s1, gate) := Recover(s, n, now, recovery);
            && gate == Open(Seen(s, n.id, now, recovery))
            && s1.nodes == s.nodes[n.id := Seen(s, n.id, now, recovery)] && s1.mutes == s.mutes
            && s1.chat == ChatMet(s, n.id, now) && s1.sent == SentMet(s, n.id, now, recovery)
            && SameLimits(s1, s)
  {
    if n.silent {
      assert IsNews(SentRecord(s, n.id, NODE_SILENT), Ok, now);
      var seen := n.(lastSeen := now, silent := false);
      var s0 := PutNode(s, seen);
      assert ChatTakes(s0, seen, now, recovery) == ChatTakes(s, n, now, recovery);
      var s1 := Recover(s, n, now, recovery).0;
      assert s1.nodes == s.nodes[n.id := Seen(s, n.id, now, recovery)];
    }
  }

  lemma AuthedExact(s: RelayState, c: Caller, now: Time, recovery: Telegram)
    requires Credible(s, c, now) && NodeHasCalls(s, c, now) && Tied(s, c.id)
    ensures var (s1, gate) := Authed(s, c, now, recovery);
            && gate == Open(Seen(s, c.id, now, recovery))
            && s1.nodes == s.nodes[c.id := Seen(s, c.id, now, recovery)] && s1.mutes == s.mutes
            && s1.chat == ChatMet(s, c.id, now) && s1.sent == SentMet(s, c.id, now, recovery)
            && SameLimits(s1, PastLimits(s, c, now))
  {
    var s2 := PastLimits(s, c, now);
    RecoverExact(s2, s.nodes[c.id], now, recovery);
    assert Authed(s, c, now, recovery) == Recover(s2, s.nodes[c.id], now, recovery);
  }

  /** A heartbeat: the node is seen now and its summary stored, also when it was silent. */
  lemma HeartbeatDoes(s: RelayState, c: Caller, summary: string, now: Time, recovery: Telegram, tg: Telegram)
    requires Credible(s, c, now) && NodeHasCalls(s, c, now) && SilenceAgrees(s)
    ensures var (s1, response) := Serve(s, c, Heartbeat(summary), now, recovery, tg);
            && response == NoContent
            && s1.nodes == s.nodes[c.id := Seen(s, c.id, now, recovery).(summary := summary)]
            && s1.mutes == s.mutes && s1.sent == SentMet(s, c.id, now, recovery)
            && s1.chat == ChatMet(s, c.id, now) && SameLimits(s1, PastLimits(s, c, now))
  {
    assert Tied(s, c.id);
    AuthedExact(s, c, now, recovery);
  }

  lemma HandleUnpair(s: RelayState, n: Node, now: Time, tg: Telegram)
    requires n.id in s.nodes
    ensures var (s1, response) := Handle(s, n, Unpair, now, tg);
            && response == NoContent && s1.nodes == s.nodes - {n.id}
            && s1.sent == WithoutId(s.sent, n.id) && s1.mutes == WithoutId(s.mutes, n.id)
            && s1.chat == ChatUsed(s, n, true, now) && SameLimits(s1, s)
  {
  }

  lemma UnpairMaps(s: RelayState, c: Caller, now: Time, recovery: Telegram, tg: Telegram)
    requires Credible(s, c, now) && NodeHasCalls(s, c, now) && Tied(s, c.id)
    ensures var (s1, response) := Serve(s, c, Unpair, now, recovery, tg);
            && response == NoContent && s1.nodes == s.nodes - {c.id}
            && s1.sent == WithoutId(SentMet(s, c.id, now, recovery), c.id) && s1.mutes == WithoutId(s.mutes, c.id)
            && s1.chat == ChatUsed(s.(chat := ChatMet(s, c.id, now)), s.nodes[c.id], true, now) && SameLimits(s1, PastLimits(s, c, now))
  {
    AuthedExact(s, c, now, recovery);
    var (s1, gate) := Authed(s, c, now, recovery);
    HandleUnpair(s1, gate.caller, now, tg);
    assert s1.nodes - {c.id} == s.nodes - {c.id};
  }

  lemma LookupWithoutId<V>(m: map<string, V>, gone: string, id: string, alert: string)
    requires NulFree(gone) && NulFree(id)
    ensures Find(WithoutId(m, gone), Key(id, alert)) == if id == gone then None else Find(m, Key(id, alert))
  {
    UnderIdExact(id, alert, gone);
  }

  /** An unpair: the node and exactly its records and mutes are gone. */
  lemma UnpairDoes(s: RelayState, c: Caller, now: Time, recovery: Telegram, tg: Telegram, id: string, alert: string)
    requires Credible(s, c, now) && NodeHasCalls(s, c, now) && SilenceAgrees(s) && NulFree(id)
    ensures var (s1, response) := Serve(s, c, Unpair, now, recovery, tg);
            && response == NoContent && s1.nodes == s.nodes - {c.id}
            && SentRecord(s1, id, alert) == (if id == c.id then None else SentRecord(s, id, alert))
            && Find(s1.mutes, Key(id, alert)) == if id == c.id then None else Find(s.mutes, Key(id, alert))
  {
    assert Tied(s, c.id);
    UnpairMaps(s, c, now, recovery, tg);
    var met := SentMet(s, c.id, now, recovery);
    LookupWithoutId(met, c.id, id, alert);
    LookupWithoutId(s.mutes, c.id, id, alert);
    if id != c.id && Key(id, alert) == Key(c.id, NODE_SILENT) {
      KeyInjective(id, alert, c.id, NODE_SILENT);
    }
    assert id != c.id ==> Find(met, Key(id, alert)) == SentRecord(s, id, alert);
  }

  /** An alert report that is out of form changes nothing beyond the node having been seen. */
  lemma BadAlertDoes(s: RelayState, c: Caller, r: Report, now: Time, recovery: Telegram, tg: Telegram)
    requires Credible(s, c, now) && NodeHasCalls(s, c, now) && SilenceAgrees(s) && !ValidAlert(r)
    ensures var (s1, response) := Serve(s, c, Alert(r), now, recovery, tg);
            && response == BadRequest
            && s1.nodes == s.nodes[c.id := Seen(s, c.id, now, recovery)]
            && s1.mutes == s.mutes && s1.sent == SentMet(s, c.id, now, recovery)
            && s1.chat == ChatMet(s, c.id, now) && SameLimits(s1, PastLimits(s, c, now))
  {
    assert Tied(s, c.id);
    AuthedExact(s, c, now, recovery);
  }

  /** Does the report ask for a message: an info one always, another when it is news and not muted? */
  predicate Tells(s: RelayState, id: string, r: Report, now: Time) {
    r.state == Info || (IsNews(SentRecord(s, id, r.alert), r.state, now) && !MutedIn(s.mutes, id, r.alert, now))
  }

  /** Is the report recorded: news, and muted or taken by the chat? */
  predicate Records(s: RelayState, id: string, r: Report, now: Time, taken: bool) {
    r.state != Info && IsNews(SentRecord(s, id, r.alert), r.state, now) && (MutedIn(s.mutes, id, r.alert, now) || taken)
  }

  /** A message to the chat, in full. */
  lemma NotifyExact(s: RelayState, n: Node, now: Time, tg: Telegram)
    requires n.id in s.nodes && s.nodes[n.id] == n
    ensures var (s1, ok) := Notify(s, n, now, tg);
            && ok == ChatTakes(s, n, now, tg)
            && s1 == s.(chat := ChatUsed(s, n, true, now), nodes := s.nodes[n.id := AfterMessage(s, n, true, now, tg)])
  {
    assert s.nodes[n.id := n] == s.nodes;
  }

  /** The chat limiter after a request that tells something or not; a blocked chat is not asked. */
  function ChatUsed(s: RelayState, n: Node, tells: bool, now: Time): L.LimiterState {
    if tells && !n.blocked then L.Admit(CHAT_RATE, s.chat, Itoa(n.chatID), now).0 else s.chat
  }

  /** The node after a request of it that tells something or not: a chat that answers that it blocks the bot is remembered. */
  function AfterMessage(s: RelayState, n: Node, tells: bool, now: Time, tg: Telegram): Node {
    n.(blocked := n.blocked || (tells && tg == ChatBlocked && ChatTakes(s, n, now, Sent)))
  }

  lemma HandleAlert(s: RelayState, n: Node, r: Report, now: Time, tg: Telegram)
    requires n.id in s.nodes && s.nodes[n.id] == n && ValidAlert(r)
    ensures var (s1, response) := Handle(s, n, Alert(r), now, tg);
            AlertHandled(s, n, r, now, tg, s1, response)
  {
    NotifyExact(s, n, now, tg);
    assert s.nodes[n.id := n] == s.nodes;
    var s1 := DeliverAlert(s, n, r.alert, r.state, now, tg).0;
    if !Tells(s, n.id, r, now) {
      assert s1.nodes == s.nodes;
    }
  }

  /**
   An alert report in form. The node is seen now. The answer is NoContent
   exactly when nothing was to tell or the chat took the message. It is
   recorded when it was news and muted or taken. And a chat that answers that
   it blocks the bot is remembered as blocked.
   */
  lemma AlertDoes(s: RelayState, c: Caller, r: Report, now: Time, recovery: Telegram, tg: Telegram)
    requires Credible(s, c, now) && NodeHasCalls(s, c, now) && SilenceAgrees(s) && ValidAlert(r) && r.alert != NODE_SILENT
    ensures var (s1, response) := Serve(s, c, Alert(r), now, recovery, tg);
            AlertDone(s, c.id, r, now, recovery, tg, s1, response) && SameLimits(s1, PastLimits(s, c, now))
  {
    assert Tied(s, c.id);
    AuthedExact(s, c, now, recovery);
    var (s1, gate) := Authed(s, c, now, recovery);
    HandleAlert(s1, gate.caller, r, now, tg);
    var (s2, response) := Handle(s1, gate.caller, Alert(r), now, tg);
    AlertOnceIn(s, s1, c.id, r, now, recovery, tg, s2, response);
    assert Serve(s, c, Alert(r), now, recovery, tg) == (s2, response);
  }

  /** The answer to a valid report of node `id`, and everything it changes. */
  ghost predicate AlertDone(s: RelayState, id: string, r: Report, now: Time, recovery: Telegram, tg: Telegram,
                            s1: RelayState, response: Response)
    requires id in s.nodes
  {
    var n, met := Seen(s, id, now, recovery), s.(chat := ChatMet(s, id, now));
    var tells, taken := Tells(s, id, r, now), ChatTakes(met, n, now, tg);
    && response == (if tells && !taken then DeliveryFailed else NoContent)
    && s1.mutes == s.mutes && s1.chat == ChatUsed(met, n, tells, now)
    && s1.nodes == s.nodes[id := AfterMessage(met, n, tells, now, tg)]
    && s1.sent == if Records(s, id, r, now, taken) then SentMet(s, id, now, recovery)[Key(id, r.alert) := SentRec(r.state, now)]
                  else SentMet(s, id, now, recovery)
  }

  /** What a valid report did to a state, in the words of HandleAlert. */
  ghost predicate AlertHandled(s: RelayState, n: Node, r: Report, now: Time, tg: Telegram, s1: RelayState, response: Response) {
    var tells, taken := Tells(s, n.id, r, now), ChatTakes(s, n, now, tg);
    && response == (if tells && !taken then DeliveryFailed else NoContent)
    && s1.mutes == s.mutes && s1.nodes == s.nodes[n.id := AfterMessage(s, n, tells, now, tg)]
    && s1.chat == ChatUsed(s, n, tells, now) && SameLimits(s1, s)
    && s1.sent == if Records(s, n.id, r, now, taken) then s.sent[Key(n.id, r.alert) := SentRec(r.state, now)] else s.sent
  }

  lemma AlertOnceIn(s: RelayState, s1: RelayState, id: string, r: Report, now: Time, recovery: Telegram, tg: Telegram,
                    s2: RelayState, response: Response)
    requires id in s.nodes && NulFree(id) && s.nodes[id].id == id && r.alert != NODE_SILENT
    requires s1.nodes == s.nodes[id := Seen(s, id, now, recovery)] && s1.mutes == s.mutes
    requires s1.chat == ChatMet(s, id, now) && s1.sent == SentMet(s, id, now, recovery)
    requires AlertHandled(s1, Seen(s, id, now, recovery), r, now, tg, s2, response)
    ensures AlertDone(s, id, r, now, recovery, tg, s2, response)
  {
    var n := Seen(s, id, now, recovery);
    RecordMet(s, id, r.alert, now, recovery);
    SameDecision(s, s1, id, r, now, ChatTakes(s1, n, now, tg));
    SameChat(s1, s.(chat := ChatMet(s, id, now)), n, Tells(s, id, r, now), now, tg);
    PutTwice(s.nodes, id, n, AfterMessage(s1, n, Tells(s, id, r, now), now, tg));
  }

  lemma PutTwice(nodes: map<string, Node>, id: string, a: Node, b: Node)
    ensures nodes[id := a][id := b] == nodes[id := b]
  {
  }

  lemma SameChat(s: RelayState, s1: RelayState, n: Node, tells: bool, now: Time, tg: Telegram)
    requires s.chat == s1.chat
    ensures ChatTakes(s, n, now, tg) == ChatTakes(s1, n, now, tg)
    ensures AfterMessage(s, n, tells, now, tg) == AfterMessage(s1, n, tells, now, tg)
    ensures ChatUsed(s, n, tells, now) == ChatUsed(s1, n, tells, now)
  {
  }

  lemma SameDecision(s: RelayState, s1: RelayState, id: string, r: Report, now: Time, taken: bool)
    requires s1.mutes == s.mutes && SentRecord(s1, id, r.alert) == SentRecord(s, id, r.alert)
    ensures Tells(s1, id, r, now) == Tells(s, id, r, now)
    ensures Records(s1, id, r, now, taken) == Records(s, id, r, now, taken)
  {
  }

  lemma RecordMet(s: RelayState, id: string, alert: string, now: Time, recovery: Telegram)
    requires id in s.nodes && NulFree(id) && alert != NODE_SILENT
    ensures Find(SentMet(s, id, now, recovery), Key(id, alert)) == SentRecord(s, id, alert)
  {
    if Key(id, alert) == Key(id, NODE_SILENT) {
      KeyInjective(id, alert, id, NODE_SILENT);
    }
  }

  // --- whole runs -------------------------------------------------------------------

  /** What reaches the relay: requests, ticks, new pairings and chat commands. */
  datatype Event =
    | Requested(caller: Caller, req: Request, now: Time, recovery: Telegram, tg: Telegram)
    | Ticked(listed: seq<Node>, now: Time, fates: string -> Telegram)
    | Paired(node: Node)
    | MuteSet(id: string, alert: string, until: Time)
    | MuteCleared(id: string, alert: string)
    | ChatUnpaired(id: string)
    | Unblocked(chatID: int)

  function Next(s: RelayState, e: Event): RelayState {
    match e
    case Requested(c, req, now, recovery, tg) => Serve(s, c, req, now, recovery, tg).0
    case Ticked(listed, now, fates) => CheckSilent(s, listed, now, fates)
    case Paired(n) => if NameTaken(s.nodes, n) then s else s.(nodes := s.nodes[n.id := n])
    case MuteSet(id, alert, until) => s.(mutes := FlatOp(s.mutes, Put(id, alert, until)))
    case MuteCleared(id, alert) => s.(mutes := FlatOp(s.mutes, Clear(id, alert)))
    case ChatUnpaired(id) => DropNode(s, id)
    case Unblocked(chatID) =>
      s.(nodes := map id | id in s.nodes ::
           if s.nodes[id].chatID == chatID then s.nodes[id].(blocked := false) else s.nodes[id])
  }

  /**
   The events a relay meets while nodes report only their own rules: a tick
   lists the silence candidates, a new node gets an unused id of the issued
   form and starts out not silent.
   */
  ghost predicate Proper(s: RelayState, e: Event, silentAfter: Duration) {
    match e
    case Requested(_, req, _, _, _) => req.Alert? ==> req.report.alert != NODE_SILENT
    case Ticked(listed, now, _) => Candidates(s.nodes, now - silentAfter, listed)
    case Paired(n) => ValidNodeId(n.id) && n.id !in s.nodes && !n.silent
    case _ => true
  }

  ghost predicate ProperRun(s: RelayState, events: seq<Event>, silentAfter: Duration)
    decreases |events|
  {
    events != [] ==> Proper(s, events[0], silentAfter) && ProperRun(Next(s, events[0]), events[1..], silentAfter)
  }

  function Run(s: RelayState, events: seq<Event>): RelayState
    decreases |events|
  {
    if events == [] then s else Run(Next(s, events[0]), events[1..])
  }

  lemma NextKeepsTied(s: RelayState, e: Event, silentAfter: Duration)
    requires SilenceAgrees(s) && Proper(s, e, silentAfter)
    ensures SilenceAgrees(Next(s, e))
  {
    match e
    case Requested(c, req, now, recovery, tg) =>
      AuthedKeepsTied(s, c, now, recovery);
      var (s1, gate) := Authed(s, c, now, recovery);
      if gate.Open? {
        HandleKeepsTied(s1, gate.caller, req, now, tg);
      }
    case Ticked(listed, now, fates) =>
      CheckSilentKeepsTied(s, listed, now, fates);
    case ChatUnpaired(id) =>
      DropKeepsTied(s, id);
    case Paired(n) =>
      ValidNodeIdIsNulFree(n.id);
      var s1 := Next(s, e);
      forall id ensures Tied(s1, id) {
        assert Tied(s, id);
      }
    case _ =>
      var s1 := Next(s, e);
      forall id ensures Tied(s1, id) {
        assert Tied(s, id);
      }
  }

  /**
   The silence flag and its record never diverge: from an empty relay,
   between any two events of any run, whatever the fate of each message, a
   stored node is flagged silent exactly when its recorded node_silent state
   is firing.
   */
  lemma {:induction false} SilenceNeverDiverges(s: RelayState, events: seq<Event>, silentAfter: Duration)
    requires SilenceAgrees(s) && ProperRun(s, events, silentAfter)
    ensures SilenceAgrees(Run(s, events))
    decreases |events|
  {
    if events != [] {
      NextKeepsTied(s, events[0], silentAfter);
      SilenceNeverDiverges(Next(s, events[0]), events[1..], silentAfter);
    }
  }

  lemma EmptyRelayAgrees(s: RelayState)
    requires s.nodes == map[] && s.sent == map[]
    ensures SilenceAgrees(s)
  {
  }

  /** A node may report node_silent itself: the name is known, and validation does not ask who raises it. */
  lemma NodeMayReportSilence(state: State)
    ensures ValidAlert(Report(NODE_SILENT, state, Critical, 0, 0))
  {
    assert ALERTS[14].name == NODE_SILENT;
    assert NODE_SILENT !in EVENTS by { assert |NODE_SILENT| == 11; }
  }

  /**
   Such a report is the one way the flag and the record part: they still
   agree afterwards exactly when the report was an info message, claimed the
   state the flag already shows, or could neither be muted nor be sent.
   */
  lemma SelfReportedSilenceIff(s: RelayState, n: Node, state: State, now: Time, tg: Telegram)
    requires SilenceAgrees(s) && n.id in s.nodes && s.nodes[n.id] == n
    ensures var s1 := Handle(s, n, Alert(Report(NODE_SILENT, state, Critical, 0, 0)), now, tg).0;
            SilenceAgrees(s1) <==>
              || state == Info
              || (state == Firing <==> n.silent)
              || (!MutedIn(s.mutes, n.id, NODE_SILENT, now) && !ChatTakes(s, n, now, tg))
  {
    NodeMayReportSilence(state);
    assert Tied(s, n.id);
    var (s1, response) := Handle(s, n, Alert(Report(NODE_SILENT, state, Critical, 0, 0)), now, tg);
    DeliverAlertIsDeliver(s, n, NODE_SILENT, state, now, tg);
    if state == Info {
      NotifyKeepsTied(s, n, now, tg);
    } else {
      forall id | id != n.id ensures Tied(s, id) {
      }
      DeliverSilence(s, n, state, now, tg);
      assert response == NoContent <==> Deliver(SentRecord(s, n.id, NODE_SILENT),
        Post(state, now, MutedIn(s.mutes, n.id, NODE_SILENT, now), ChatTakes(s, n, now, tg))).accepted;
      if Tied(s1, n.id) {
        forall id ensures Tied(s1, id) {
        }
      }
    }
  }

  const EMPTY_RELAY := RelayState(map[], map[], map[], L.NEW_LIMITER, L.NEW_LIMITER, L.NEW_LIMITER)

  /** The first request of the first node is let in. */
  lemma FirstRequestEnters(n: Node, c: Caller, now: Time)
    requires ValidNodeId(n.id) && !n.silent && c.id == n.id && c.bodyOk && c.proven
    ensures var seen := n.(lastSeen := now);
            var (s, gate) := Authed(EMPTY_RELAY.(nodes := map[n.id := n]), c, now, Sent);
            gate == Open(seen) && s.nodes == map[n.id := seen] && s.mutes == map[] && s.sent == map[] && s.chat == L.NEW_LIMITER
  {
    L.FirstCallAdmitted(ADMIT_RATE, c.ip, now);
    L.FirstCallAdmitted(NODE_RATE, c.id, now);
  }

  /**
   A relay that has met only a new pairing and one self-reported silence: the
   record says firing and the flag does not, so the next request sends no
   recovery.
   */
  lemma SelfReportParts(n: Node, c: Caller, now: Time) returns (events: seq<Event>)
    requires ValidNodeId(n.id) && !n.silent && !n.blocked
    requires c.id == n.id && c.bodyOk && c.proven
    ensures events == [Paired(n), Requested(c, Alert(Report(NODE_SILENT, Firing, Critical, 0, 0)), now, Sent, Sent)]
    ensures var s := Run(EMPTY_RELAY, events);
            && n.id in s.nodes && !s.nodes[n.id].silent && IsFiring(SentRecord(s, n.id, NODE_SILENT))
            && !SilenceAgrees(s)
  {
    var req := Alert(Report(NODE_SILENT, Firing, Critical, 0, 0));
    var s1, seen := EMPTY_RELAY.(nodes := map[n.id := n]), n.(lastSeen := now);
    var report := Requested(c, req, now, Sent, Sent);
    events := [Paired(n), report];
    assert Next(EMPTY_RELAY, Paired(n)) == s1 by {
      assert EMPTY_RELAY.nodes[n.id := n] == map[n.id := n];
    }
    RunTwo(EMPTY_RELAY, Paired(n), report);
    FirstRequestEnters(n, c, now);
    ServeOpen(s1, c, req, now, seen);
    ReportParts(Authed(s1, c, now, Sent).0, seen, now);
  }

  lemma {:induction false} RunTwo(s: RelayState, a: Event, b: Event)
    ensures Run(s, [a, b]) == Next(Next(s, a), b)
  {
    assert [a, b][1..] == [b] && [b][1..] == [];
    assert Run(s, [a, b]) == Run(Next(s, a), [b]);
  }

  lemma ServeOpen(s: RelayState, c: Caller, req: Request, now: Time, n: Node)
    requires Authed(s, c, now, Sent).1 == Open(n)
    ensures Next(s, Requested(c, req, now, Sent, Sent)) == Handle(Authed(s, c, now, Sent).0, n, req, now, Sent).0
  {
  }

  lemma ReportParts(s: RelayState, n: Node, now: Time)
    requires ValidNodeId(n.id) && !n.silent && !n.blocked
    requires s.nodes == map[n.id := n] && s.mutes == map[] && s.sent == map[] && s.chat == L.NEW_LIMITER
    ensures var s1 := Handle(s, n, Alert(Report(NODE_SILENT, Firing, Critical, 0, 0)), now, Sent).0;
            && n.id in s1.nodes && !s1.nodes[n.id].silent && IsFiring(SentRecord(s1, n.id, NODE_SILENT))
            && !SilenceAgrees(s1)
  {
    ValidNodeIdIsNulFree(n.id);
    NodeMayReportSilence(Firing);
    L.FirstCallAdmitted(CHAT_RATE, Itoa(n.chatID), now);
    var s1 := Handle(s, n, Alert(Report(NODE_SILENT, Firing, Critical, 0, 0)), now, Sent).0;
    assert s1 == PutRecord(s.(chat := s1.chat), n.id, NODE_SILENT, Firing, now);
    assert !Tied(s1, n.id);
  }

  // --- names within a chat ------------------------------------------------------------

  /** No two nodes of one chat share a name. */
  ghost predicate NamesUnique(s: RelayState) {
    forall a, b | a in s.nodes && b in s.nodes && a != b ::
      s.nodes[a].chatID != s.nodes[b].chatID || s.nodes[a].name != s.nodes[b].name
  }

  /** No node appears, and none changes its chat or its name. */
  ghost predicate KeepsIdentities(s: RelayState, s1: RelayState) {
    forall id | id in s1.nodes ::
      id in s.nodes && s1.nodes[id].chatID == s.nodes[id].chatID && s1.nodes[id].name == s.nodes[id].name
  }

  lemma ServeKeepsIdentities(s: RelayState, c: Caller, req: Request, now: Time, recovery: Telegram, tg: Telegram)
    requires SilenceAgrees(s) && (req.Alert? ==> req.report.alert != NODE_SILENT)
    ensures KeepsIdentities(s, Serve(s, c, req, now, recovery, tg).0)
  {
    if !Credible(s, c, now) {
      RefusalTouchesNothing(s, c, req, now, recovery, tg);
    } else if !NodeHasCalls(s, c, now) {
      OverNodeRate(s, c, req, now, recovery, tg);
    } else {
      match req
      case Alert(r) =>
        if ValidAlert(r) {
          AlertDoes(s, c, r, now, recovery, tg);
        } else {
          BadAlertDoes(s, c, r, now, recovery, tg);
        }
      case Heartbeat(summary) => HeartbeatDoes(s, c, summary, now, recovery, tg);
      case Unpair => UnpairDoes(s, c, now, recovery, tg, "", "");
    }
  }

  lemma {:induction false} TickKeepsIdentities(s: RelayState, listed: seq<Node>, now: Time, tg: string -> Telegram)
    requires SilenceAgrees(s) && Listable(s, listed)
    ensures KeepsIdentities(s, CheckSilent(s, listed, now, tg))
    decreases |listed|
  {
    if listed != [] {
      var n := listed[0];
      assert Tied(s, n.id);
      DeliverAlertIsDeliver(s, n, NODE_SILENT, Firing, now, tg(n.id));
      ListableNext(s, listed, now, tg(n.id));
      TickKeepsIdentities(RaiseSilence(s, n, now, tg(n.id)), listed[1..], now, tg);
    }
  }

  lemma NextKeepsNames(s: RelayState, e: Event, silentAfter: Duration)
    requires SilenceAgrees(s) && NamesUnique(s) && Proper(s, e, silentAfter)
    ensures NamesUnique(Next(s, e))
  {
    match e
    case Requested(c, req, now, recovery, tg) => ServeKeepsIdentities(s, c, req, now, recovery, tg);
    case Ticked(listed, now, fates) => TickKeepsIdentities(s, listed, now, fates);
    case _ =>
  }

  /** Over any run no two nodes of one chat ever share a name. */
  lemma {:induction false} NamesStayUnique(s: RelayState, events: seq<Event>, silentAfter: Duration)
    requires SilenceAgrees(s) && NamesUnique(s) && ProperRun(s, events, silentAfter)
    ensures NamesUnique(Run(s, events))
    decreases |events|
  {
    if events != [] {
      NextKeepsTied(s, events[0], silentAfter);
      NextKeepsNames(s, events[0], silentAfter);
      NamesStayUnique(Next(s, events[0]), events[1..], silentAfter);
    }
  }

  /** A node whose name is free in its chat is paired; one whose name is taken changes nothing. */
  lemma PairedIff(s: RelayState, n: Node)
    requires n.id !in s.nodes
    ensures n.id in Next(s, Paired(n)).nodes
       <==> forall id | id in s.nodes :: s.nodes[id].chatID != n.chatID || s.nodes[id].name != n.name
    ensures n.id !in Next(s, Paired(n)).nodes ==> Next(s, Paired(n)) == s
  {
  }

  // --- the limits in force over a run -----------------------------------------------------

  /** The calls a run makes of the address limiter: one for every request, whoever sends it. */
  function AddressCalls(events: seq<Event>): seq<L.Call>
    decreases |events|
  {
    if events == [] then []
    else
      var rest := AddressCalls(events[1..]);
      if events[0].Requested? then [L.Call(events[0].caller.ip, events[0].now)] + rest else rest
  }

  lemma NextAddressCalls(s: RelayState, e: Event, silentAfter: Duration)
    requires SilenceAgrees(s) && Proper(s, e, silentAfter)
    ensures Next(s, e).admit == if e.Requested? then L.Admit(ADMIT_RATE, s.admit, e.caller.ip, e.now).0 else s.admit
  {
    match e
    case Requested(c, req, now, recovery, tg) =>
      if !Credible(s, c, now) {
        RefusalTouchesNothing(s, c, req, now, recovery, tg);
      } else if !NodeHasCalls(s, c, now) {
        OverNodeRate(s, c, req, now, recovery, tg);
      } else {
        assert Tied(s, c.id);
        match req
        case Alert(r) =>
          if ValidAlert(r) {
            AlertDoes(s, c, r, now, recovery, tg);
          } else {
            BadAlertDoes(s, c, r, now, recovery, tg);
          }
        case Heartbeat(summary) => HeartbeatDoes(s, c, summary, now, recovery, tg);
        case Unpair => UnpairMaps(s, c, now, recovery, tg);
      }
    case Ticked(listed, now, fates) => TickCounts(s, listed, now, fates);
    case _ =>
  }

  /**
   Over any run every request, served or refused, is one call of the address
   limiter and nothing else is; so what is proved of the limiter's runs, the
   rate bound among it, holds of the relay's.
   */
  lemma {:induction false} AddressLimitIsRun(s: RelayState, events: seq<Event>, silentAfter: Duration)
    requires SilenceAgrees(s) && ProperRun(s, events, silentAfter)
    ensures Run(s, events).admit == L.AllowAll(ADMIT_RATE, s.admit, AddressCalls(events))
    decreases |events|
  {
    if events != [] {
      var e, rest := events[0], AddressCalls(events[1..]);
      NextKeepsTied(s, e, silentAfter);
      NextAddressCalls(s, e, silentAfter);
      AddressLimitIsRun(Next(s, e), events[1..], silentAfter);
      if e.Requested? {
        assert AddressCalls(events)[1..] == rest;
      }
    }
  }
}
